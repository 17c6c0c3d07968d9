/** The byte-at-a-time guard in front of the JSON parser, against a declarative lexer.
    A byte of the source is a char here; its 64-bit counters never pass their limits. */
module LexicalGuard {
  import opened Decimal
  import opened Options

  datatype ArchiveError = LimitExceeded

  datatype Limits = Limits(maxScalarBytes: nat, maxJsonDepth: nat, maxRawRecordBytes: nat)

  predicate IsAsciiWhitespace(c: char) { IsSpace(c) || c == 12 as char }

  predicate IsDelimiter(c: char) { IsSpace(c) || c == ',' || c == ':' }

  predicate Opens(c: char) { c == '[' || c == '{' }

  predicate Closes(c: char) { c == ']' || c == '}' }

  // ----- the guard's fields, and one byte of progress without limits -----

  datatype Guard = Guard(
    depth: nat, inString: bool, escaped: bool, scalarBytes: nat, number: bool, decimal: Scan,
    numericGrammar: DecimalGrammar, started: bool, rootArray: bool, recordBytes: nat)

  const INITIAL: Guard := Guard(0, false, false, 0, false, START, Other, false, false, 0)

  function AfterStart(g: Guard, byte: char): Guard
  {
    if !g.started && !IsAsciiWhitespace(byte) then g.(started := true, rootArray := byte == '[') else g
  }

  function AfterRecord(g: Guard, byte: char): Guard
  {
    if g.rootArray && g.depth == 1 && !g.inString && (byte == ',' || byte == ']') then g.(recordBytes := 0)
    else if g.started && !(g.rootArray && g.depth == 0) then g.(recordBytes := g.recordBytes + 1)
    else g
  }

  function AfterLexeme(g: Guard, byte: char): Guard
  {
    if g.inString then
      if !g.escaped && byte == '"' then g.(inString := false, scalarBytes := 0)
      else g.(scalarBytes := g.scalarBytes + 1, escaped := !g.escaped && byte == '\\')
    else if byte == '"' then g.(inString := true, escaped := false, scalarBytes := 0, number := false)
    else if Opens(byte) then g.(depth := g.depth + 1, number := false)
    else if Closes(byte) then g.(depth := if g.depth == 0 then 0 else g.depth - 1, number := false)
    else if IsDelimiter(byte) then g.(number := false, scalarBytes := 0)
    else
      var decimal := Pushed(if g.number then g.decimal else START, byte);
      g.(scalarBytes := (if g.number then g.scalarBytes else 0) + 1, number := true,
         decimal := decimal, numericGrammar := Finished(decimal))
  }

  function Advance(g: Guard, byte: char): Guard
  {
    AfterLexeme(AfterRecord(AfterStart(g, byte), byte), byte)
  }

  function Run(text: string): Guard
  {
    if |text| == 0 then INITIAL else Advance(Run(text[..|text| - 1]), text[|text| - 1])
  }

  /** Every counter is within its limit. */
  predicate Fits(g: Guard, limits: Limits)
  {
    && g.depth <= limits.maxJsonDepth
    && g.recordBytes <= limits.maxRawRecordBytes
    && (g.inString ==> g.scalarBytes <= limits.maxScalarBytes * 6)
    && (!g.inString && g.number ==> g.scalarBytes <= limits.maxScalarBytes)
  }

  /** The guard of the source. */
  class Observer {
    const limits: Limits
    var depth: nat
    var inString: bool
    var escaped: bool
    var scalarBytes: nat
    var number: bool
    var decimal: DecimalScanner
    var numericGrammar: DecimalGrammar
    var started: bool
    var rootArray: bool
    var recordBytes: nat

    function View(): Guard
      reads this, decimal
    {
      Guard(depth, inString, escaped, scalarBytes, number, decimal.View(), numericGrammar, started, rootArray,
        recordBytes)
    }

    constructor (limits: Limits)
      ensures View() == INITIAL && Fits(View(), limits) && this.limits == limits && fresh(decimal)
    {
      this.limits := limits;
      depth, scalarBytes, recordBytes := 0, 0, 0;
      inString, escaped, number, started, rootArray := false, false, false, false, false;
      numericGrammar := Other;
      var scanner := new DecimalScanner();
      decimal := scanner;
    }

    /** The first half of the source's `observe`: where records start and how long they are. */
    method ObserveRecord(byte: char) returns (r: Result<(), ArchiveError>)
      modifies this
      ensures decimal == old(decimal)
      ensures r.Ok? <==> (var g := AfterRecord(AfterStart(old(View()), byte), byte);
        g.recordBytes == old(recordBytes) || g.recordBytes <= limits.maxRawRecordBytes)
      ensures r.Ok? ==> View() == AfterRecord(AfterStart(old(View()), byte), byte)
    {
      if !started && !IsAsciiWhitespace(byte) {
        started := true;
        rootArray := byte == '[';
      }
      if rootArray && depth == 1 && !inString && (byte == ',' || byte == ']') {
        recordBytes := 0;
      } else if started && !(rootArray && depth == 0) {
        recordBytes := recordBytes + 1;
        if recordBytes > limits.maxRawRecordBytes {
          return Err(LimitExceeded);
        }
      }
      return Ok(());
    }

    method ObserveStringByte(byte: char) returns (r: Result<(), ArchiveError>)
      requires inString
      modifies this
      ensures decimal == old(decimal)
      ensures r.Ok? <==>
        (var g := AfterLexeme(old(View()), byte); g.inString ==> g.scalarBytes <= limits.maxScalarBytes * 6)
      ensures r.Ok? ==> View() == AfterLexeme(old(View()), byte)
    {
      if !escaped && byte == '"' {
        inString := false;
        scalarBytes := 0;
      } else {
        scalarBytes := scalarBytes + 1;
        if scalarBytes > limits.maxScalarBytes * 6 {
          return Err(LimitExceeded);
        }
        escaped := !escaped && byte == '\\';
      }
      return Ok(());
    }

    method ObserveLiteralByte(byte: char) returns (r: Result<(), ArchiveError>)
      requires !inString && byte != '"' && !Opens(byte) && !Closes(byte) && !IsDelimiter(byte)
      modifies this, decimal
      ensures fresh(decimal) || decimal == old(decimal)
      ensures r.Ok? <==> AfterLexeme(old(View()), byte).scalarBytes <= limits.maxScalarBytes
      ensures r.Ok? ==> View() == AfterLexeme(old(View()), byte)
    {
      hide Pushed, Finished;
      if !number {
        scalarBytes := 0;
        number := true;
        decimal := new DecimalScanner();
      }
      scalarBytes := scalarBytes + 1;
      if scalarBytes > limits.maxScalarBytes {
        return Err(LimitExceeded);
      }
      decimal.Push(byte);
      numericGrammar := decimal.Finish();
      return Ok(());
    }

    method ObserveMark(byte: char) returns (r: Result<(), ArchiveError>)
      requires !inString && (byte == '"' || Opens(byte) || Closes(byte) || IsDelimiter(byte))
      modifies this
      ensures decimal == old(decimal)
      ensures r.Ok? <==> (Opens(byte) ==> old(depth) + 1 <= limits.maxJsonDepth)
      ensures r.Ok? ==> View() == AfterLexeme(old(View()), byte)
    {
      if byte == '"' {
        inString, escaped, scalarBytes, number := true, false, 0, false;
      } else if Opens(byte) {
        depth := depth + 1;
        if depth > limits.maxJsonDepth {
          return Err(LimitExceeded);
        }
        number := false;
      } else if Closes(byte) {
        depth := if depth == 0 then 0 else depth - 1;
        number := false;
      } else {
        number := false;
        scalarBytes := 0;
      }
      return Ok(());
    }

    /** Rejects the byte exactly when a counter would pass its limit. */
    method Observe(byte: char) returns (r: Result<(), ArchiveError>)
      requires Fits(View(), limits)
      modifies this, decimal
      ensures fresh(decimal) || decimal == old(decimal)
      ensures r.Ok? <==> Fits(Advance(old(View()), byte), limits)
      ensures r.Ok? ==> View() == Advance(old(View()), byte)
    {
      hide Pushed, Finished, AfterLexeme, AfterRecord, AfterStart;
      LexemeFits(View(), byte, limits);
      r := ObserveRecord(byte);
      if r.Err? {
        return;
      }
      if inString {
        r := ObserveStringByte(byte);
      } else if byte == '"' || Opens(byte) || Closes(byte) || IsDelimiter(byte) {
        r := ObserveMark(byte);
      } else {
        r := ObserveLiteralByte(byte);
      }
    }
  }

  /** Which limit a byte can break, by the kind of the byte. */
  lemma LexemeFits(g: Guard, byte: char, limits: Limits)
    requires Fits(g, limits)
    ensures var h := AfterRecord(AfterStart(g, byte), byte);
      && h.inString == g.inString && h.depth == g.depth
      && (Fits(AfterLexeme(h, byte), limits) <==>
            && (h.recordBytes == g.recordBytes || h.recordBytes <= limits.maxRawRecordBytes)
            && (if g.inString then
                  AfterLexeme(h, byte).inString ==> AfterLexeme(h, byte).scalarBytes <= limits.maxScalarBytes * 6
                else if byte == '"' || Opens(byte) || Closes(byte) || IsDelimiter(byte) then
                  Opens(byte) ==> h.depth + 1 <= limits.maxJsonDepth
                else AfterLexeme(h, byte).scalarBytes <= limits.maxScalarBytes))
  {
    hide Pushed, Finished;
  }

  // ----- the declarative lexer -----

  /** A string with the bytes between its quotes, a maximal run of literal bytes, or one
      bracket, brace, separator or whitespace byte. */
  datatype Token = Text(body: string, closed: bool) | Literal(run: string) | Mark(byte: char)

  predicate IsMark(c: char) { Opens(c) || Closes(c) || IsDelimiter(c) }

  predicate IsLiteralByte(c: char) { c != '"' && !IsMark(c) }

  /** The number of backslashes at the end of a text. */
  function TrailingBackslashes(body: string): nat
  {
    if |body| > 0 && body[|body| - 1] == '\\' then 1 + TrailingBackslashes(body[..|body| - 1]) else 0
  }

  /** Every quote inside a string body is escaped by an odd run of backslashes. */
  predicate QuotesEscaped(body: string)
  {
    forall i | 0 <= i < |body| && body[i] == '"' :: TrailingBackslashes(body[..i]) % 2 == 1
  }

  predicate TokenOk(t: Token)
  {
    match t
    case Text(body, closed) => QuotesEscaped(body) && (closed ==> TrailingBackslashes(body) % 2 == 0)
    case Literal(run) => run != "" && forall i | 0 <= i < |run| :: IsLiteralByte(run[i])
    case Mark(byte) => IsMark(byte)
  }

  /** Tokens of a byte stream: only the last string may be unclosed, and no two literals touch. */
  predicate WellFormed(tokens: seq<Token>)
  {
    && (forall i | 0 <= i < |tokens| :: TokenOk(tokens[i]))
    && (forall i | 0 <= i < |tokens| - 1 :: !(tokens[i].Text? && !tokens[i].closed))
    && (forall i | 0 < i < |tokens| :: !(tokens[i - 1].Literal? && tokens[i].Literal?))
  }

  function TokenText(t: Token): (text: string)
    ensures TokenOk(t) ==> text != ""
  {
    match t
    case Text(body, closed) => "\"" + body + (if closed then "\"" else "")
    case Literal(run) => run
    case Mark(byte) => [byte]
  }

  function TextOf(tokens: seq<Token>): string
  {
    if |tokens| == 0 then "" else TextOf(tokens[..|tokens| - 1]) + TokenText(tokens[|tokens| - 1])
  }

  predicate InText(tokens: seq<Token>)
  {
    |tokens| > 0 && tokens[|tokens| - 1].Text? && !tokens[|tokens| - 1].closed
  }

  predicate InLiteral(tokens: seq<Token>)
  {
    |tokens| > 0 && tokens[|tokens| - 1].Literal?
  }

  /** The tokens after one more byte. */
  function Extend(tokens: seq<Token>, c: char): seq<Token>
  {
    if InText(tokens) then
      var body := tokens[|tokens| - 1].body;
      if c == '"' && TrailingBackslashes(body) % 2 == 0 then tokens[|tokens| - 1 := Text(body, true)]
      else tokens[|tokens| - 1 := Text(body + [c], false)]
    else if c == '"' then tokens + [Text("", false)]
    else if IsMark(c) then tokens + [Mark(c)]
    else if InLiteral(tokens) then tokens[|tokens| - 1 := Literal(tokens[|tokens| - 1].run + [c])]
    else tokens + [Literal([c])]
  }

  function Tokens(text: string): seq<Token>
  {
    if |text| == 0 then [] else Extend(Tokens(text[..|text| - 1]), text[|text| - 1])
  }

  lemma TextSnoc(tokens: seq<Token>, t: Token)
    ensures TextOf(tokens + [t]) == TextOf(tokens) + TokenText(t)
  {
    assert (tokens + [t])[..|tokens|] == tokens;
  }

  /** A byte is a token of its own, or goes to the end of the last token. */
  lemma ExtendCases(tokens: seq<Token>, c: char) returns (before: seq<Token>, t: Token)
    ensures Extend(tokens, c) == before + [t]
    ensures before == tokens ==> TokenText(t) == [c]
    ensures before != tokens ==>
      |tokens| > 0 && before == tokens[..|tokens| - 1] && TokenText(t) == TokenText(tokens[|tokens| - 1]) + [c]
  {
    hide IsMark, TrailingBackslashes;
    var after := Extend(tokens, c);
    before, t := after[..|after| - 1], after[|after| - 1];
    if InText(tokens) {
      var body := tokens[|tokens| - 1].body;
      assert "\"" + (body + [c]) == "\"" + body + [c];
    }
  }

  lemma ExtendText(tokens: seq<Token>, c: char)
    ensures TextOf(Extend(tokens, c)) == TextOf(tokens) + [c]
  {
    hide Extend, TextOf, TokenText;
    var before, t := ExtendCases(tokens, c);
    TextSnoc(before, t);
    if before != tokens {
      var last := tokens[|tokens| - 1];
      assert tokens == before + [last];
      TextSnoc(before, last);
      assert TextOf(before) + (TokenText(last) + [c]) == TextOf(before) + TokenText(last) + [c];
    }
  }

  lemma ExtendWellFormed(tokens: seq<Token>, c: char)
    requires WellFormed(tokens)
    ensures WellFormed(Extend(tokens, c))
  {
    hide IsMark;
    var after := Extend(tokens, c);
    if InText(tokens) {
      var body := tokens[|tokens| - 1].body;
      forall i | 0 <= i < |body + [c]| && (body + [c])[i] == '"' && (c != '"' || TrailingBackslashes(body) % 2 == 1)
        ensures TrailingBackslashes((body + [c])[..i]) % 2 == 1
      {
        assert (body + [c])[..i] == body[..i];
        if i == |body| { assert body[..i] == body; }
      }
    }
    assert TokenOk(after[|after| - 1]);
  }

  /** Every byte stream is the text of its tokens. */
  lemma {:induction false} TokensOfText(text: string)
    ensures WellFormed(Tokens(text)) && TextOf(Tokens(text)) == text
  {
    hide Extend, WellFormed, TextOf;
    if |text| == 0 {
      NoTokens();
    } else {
      var front := text[..|text| - 1];
      assert text == front + [text[|text| - 1]];
      TokensOfText(front);
      ExtendText(Tokens(front), text[|text| - 1]);
      ExtendWellFormed(Tokens(front), text[|text| - 1]);
    }
  }

  lemma NoTokens()
    ensures WellFormed([]) && TextOf([]) == ""
  {
  }

  function LastByte(t: Token): char
    requires TokenOk(t)
  {
    match t
    case Text(body, closed) => if closed || body == "" then '"' else body[|body| - 1]
    case Literal(run) => run[|run| - 1]
    case Mark(byte) => byte
  }

  /** The tokens before their last byte. */
  function Shrink(tokens: seq<Token>): seq<Token>
    requires |tokens| > 0
  {
    var n := |tokens| - 1;
    match tokens[n]
    case Text(body, closed) =>
      if closed then tokens[n := Text(body, false)]
      else if body == "" then tokens[..n]
      else tokens[n := Text(body[..|body| - 1], false)]
    case Literal(run) => if |run| <= 1 then tokens[..n] else tokens[n := Literal(run[..|run| - 1])]
    case Mark(byte) => tokens[..n]
  }

  lemma ShrinkWellFormed(tokens: seq<Token>)
    requires WellFormed(tokens) && |tokens| > 0
    ensures WellFormed(Shrink(tokens))
  {
    hide IsMark;
    var n := |tokens| - 1;
    if tokens[n].Text? && !tokens[n].closed && tokens[n].body != "" {
      var body := tokens[n].body;
      var front := body[..|body| - 1];
      forall i | 0 <= i < |front| && front[i] == '"' ensures TrailingBackslashes(front[..i]) % 2 == 1 {
        assert front[..i] == body[..i];
      }
    }
  }

  lemma ExtendShrink(tokens: seq<Token>)
    requires WellFormed(tokens) && |tokens| > 0
    ensures Extend(Shrink(tokens), LastByte(tokens[|tokens| - 1])) == tokens
  {
    hide TrailingBackslashes, IsMark, Extend, Shrink;
    var before, last := tokens[..|tokens| - 1], tokens[|tokens| - 1];
    assert tokens == before + [last];
    match last
    case Text(body, closed) => ExtendShrinkText(before, body, closed);
    case Literal(run) => ExtendShrinkLiteral(before, run);
    case Mark(byte) => ExtendShrinkMark(before, byte);
  }

  lemma ExtendShrinkText(before: seq<Token>, body: string, closed: bool)
    requires TokenOk(Text(body, closed)) && !InText(before)
    ensures var tokens := before + [Text(body, closed)];
      Extend(Shrink(tokens), LastByte(Text(body, closed))) == tokens
  {
    hide TrailingBackslashes, IsMark;
    if !closed && body != "" {
      assert body == body[..|body| - 1] + [body[|body| - 1]];
    }
  }

  lemma ExtendShrinkLiteral(before: seq<Token>, run: string)
    requires TokenOk(Literal(run)) && !InText(before) && !InLiteral(before)
    ensures var tokens := before + [Literal(run)];
      Extend(Shrink(tokens), LastByte(Literal(run))) == tokens
  {
    hide TrailingBackslashes, IsMark;
    assert run == run[..|run| - 1] + [run[|run| - 1]];
  }

  lemma ExtendShrinkMark(before: seq<Token>, byte: char)
    requires IsMark(byte) && !InText(before)
    ensures var tokens := before + [Mark(byte)];
      Extend(Shrink(tokens), LastByte(Mark(byte))) == tokens
  {
    hide TrailingBackslashes;
  }

  /** The tokens of a text are the only well-formed tokens with that text. */
  lemma {:induction false} TokensUnique(tokens: seq<Token>)
    requires WellFormed(tokens)
    ensures Tokens(TextOf(tokens)) == tokens
    decreases |TextOf(tokens)|
  {
    hide Extend, WellFormed;
    if |tokens| == 0 {
      NoTokens();
    } else {
      LastTokenOk(tokens);
      var shorter := Shrink(tokens);
      var c := LastByte(tokens[|tokens| - 1]);
      ShrinkWellFormed(tokens);
      ExtendShrink(tokens);
      ExtendText(shorter, c);
      TokensUnique(shorter);
      assert TextOf(tokens)[..|TextOf(tokens)| - 1] == TextOf(shorter);
    }
  }

  lemma LastTokenOk(tokens: seq<Token>)
    requires WellFormed(tokens) && |tokens| > 0
    ensures TokenOk(tokens[|tokens| - 1])
  {
  }

  // ----- the guard refines the lexer -----

  /** Nesting depth: closing more than was opened stays at zero. */
  function Depth(tokens: seq<Token>): nat
  {
    if |tokens| == 0 then 0
    else
      var before, last := Depth(tokens[..|tokens| - 1]), tokens[|tokens| - 1];
      if last.Mark? && Opens(last.byte) then before + 1
      else if last.Mark? && Closes(last.byte) && before > 0 then before - 1
      else before
  }

  function Count(tokens: seq<Token>, opening: bool): nat
  {
    if |tokens| == 0 then 0
    else
      var last := tokens[|tokens| - 1];
      Count(tokens[..|tokens| - 1], opening)
      + if last.Mark? && (if opening then Opens(last.byte) else Closes(last.byte)) then 1 else 0
  }

  /** No prefix closes more than it opened. */
  predicate NeverOvercloses(tokens: seq<Token>)
  {
    forall k | 0 <= k <= |tokens| :: Count(tokens[..k], false) <= Count(tokens[..k], true)
  }

  /** By how much the closing brackets outnumber the opening ones, in the prefix where that is most. */
  function Excess(tokens: seq<Token>): nat
  {
    if |tokens| == 0 then 0
    else
      var before, here := Excess(tokens[..|tokens| - 1]), Count(tokens, false) - Count(tokens, true);
      if here > before then here else before
  }

  lemma {:induction false} ExcessMeans(tokens: seq<Token>)
    ensures Excess(tokens) == 0 <==> NeverOvercloses(tokens)
  {
    assert tokens[..|tokens|] == tokens;
    if |tokens| > 0 {
      var front := tokens[..|tokens| - 1];
      ExcessMeans(front);
      assert forall k | 0 <= k <= |front| :: front[..k] == tokens[..k];
    }
  }

  /** The saturating depth is what was opened less what was closed, and what was closed without being open; so it
      is the difference exactly when no prefix closes more than it opened. */
  lemma {:induction false} DepthIsExact(tokens: seq<Token>)
    ensures Depth(tokens) == Count(tokens, true) - Count(tokens, false) + Excess(tokens)
    ensures Depth(tokens) == Count(tokens, true) - Count(tokens, false) <==> NeverOvercloses(tokens)
  {
    ExcessMeans(tokens);
    if |tokens| > 0 {
      DepthIsExact(tokens[..|tokens| - 1]);
    }
  }

  /** The class of the last literal run, or `Other` before the first one. */
  function LastLiteralClass(tokens: seq<Token>): DecimalGrammar
  {
    if |tokens| == 0 then Other
    else if tokens[|tokens| - 1].Literal? then Classify(tokens[|tokens| - 1].run)
    else LastLiteralClass(tokens[..|tokens| - 1])
  }

  /** What the guard's lexical fields mean in terms of the tokens read so far. */
  predicate Refines(g: Guard, tokens: seq<Token>)
  {
    && g.inString == InText(tokens)
    && g.depth == Depth(tokens)
    && g.numericGrammar == LastLiteralClass(tokens)
    && g.number == InLiteral(tokens)
    && (InText(tokens) ==>
        && g.scalarBytes == |tokens[|tokens| - 1].body|
        && g.escaped == (TrailingBackslashes(tokens[|tokens| - 1].body) % 2 == 1))
    && (InLiteral(tokens) ==>
        && g.scalarBytes == |tokens[|tokens| - 1].run|
        && g.decimal == Scanned(tokens[|tokens| - 1].run))
  }

  lemma ExtendLast(tokens: seq<Token>, c: char)
    ensures var after := Extend(tokens, c);
      && after != []
      && (|after| == |tokens| ==> after[..|after| - 1] == tokens[..|tokens| - 1])
      && (|after| != |tokens| ==> |after| == |tokens| + 1 && after[..|tokens|] == tokens)
  {
  }

  lemma RefinesInText(g: Guard, tokens: seq<Token>, c: char)
    requires Refines(g, tokens) && InText(tokens)
    ensures Refines(AfterLexeme(g, c), Extend(tokens, c))
  {
    hide Pushed, Finished, Classify;
    ExtendLast(tokens, c);
    var body := tokens[|tokens| - 1].body;
    assert (body + [c])[..|body|] == body;
  }

  lemma RefinesLiteralByte(g: Guard, tokens: seq<Token>, c: char)
    requires Refines(g, tokens) && !InText(tokens) && IsLiteralByte(c)
    ensures Refines(AfterLexeme(g, c), Extend(tokens, c))
  {
    hide Pushed, Finished, IsMark, TrailingBackslashes;
    ExtendLast(tokens, c);
    var run := if InLiteral(tokens) then tokens[|tokens| - 1].run else "";
    ScannedSnoc(run, c);
    assert IsMark(c) == (Opens(c) || Closes(c) || IsDelimiter(c)) by { MarkMeans(c); }
  }

  lemma MarkMeans(c: char)
    ensures IsMark(c) == (Opens(c) || Closes(c) || IsDelimiter(c))
  {
  }

  lemma ScannedSnoc(run: string, c: char)
    ensures Scanned(run + [c]) == Pushed(Scanned(run), c) && Scanned("") == START
  {
    assert (run + [c])[..|run|] == run;
  }

  lemma RefinesMark(g: Guard, tokens: seq<Token>, c: char)
    requires Refines(g, tokens) && !InText(tokens) && !IsLiteralByte(c)
    ensures Refines(AfterLexeme(g, c), Extend(tokens, c))
  {
    hide Pushed, Finished, Classify, Depth, LastLiteralClass;
    if c == '"' {
      OneMoreToken(tokens, Text("", false));
    } else {
      OneMoreToken(tokens, Mark(c));
    }
  }

  lemma OneMoreToken(tokens: seq<Token>, t: Token)
    ensures Depth(tokens + [t]) ==
      if t.Mark? && Opens(t.byte) then Depth(tokens) + 1
      else if t.Mark? && Closes(t.byte) && Depth(tokens) > 0 then Depth(tokens) - 1
      else Depth(tokens)
    ensures !t.Literal? ==> LastLiteralClass(tokens + [t]) == LastLiteralClass(tokens)
  {
    assert (tokens + [t])[..|tokens|] == tokens;
  }

  lemma RefinesStep(g: Guard, tokens: seq<Token>, c: char)
    requires Refines(g, tokens)
    ensures Refines(AfterLexeme(g, c), Extend(tokens, c))
  {
    hide Refines, AfterLexeme, Extend;
    if InText(tokens) {
      RefinesInText(g, tokens, c);
    } else if IsLiteralByte(c) {
      RefinesLiteralByte(g, tokens, c);
    } else {
      RefinesMark(g, tokens, c);
    }
  }

  /** On every byte stream the guard's fields are exactly what the tokens say. */
  lemma {:induction false} GuardRefinesLexer(text: string)
    ensures Refines(Run(text), Tokens(text))
  {
    hide Refines, AfterLexeme, AfterRecord, AfterStart, Extend;
    if |text| == 0 {
      InitialRefines();
    } else {
      var front, last := text[..|text| - 1], text[|text| - 1];
      GuardRefinesLexer(front);
      RecordFieldsOnly(Run(front), Tokens(front), last);
      RefinesStep(AfterRecord(AfterStart(Run(front), last), last), Tokens(front), last);
    }
  }

  lemma InitialRefines()
    ensures Refines(INITIAL, [])
  {
  }

  lemma RecordFieldsOnly(g: Guard, tokens: seq<Token>, c: char)
    requires Refines(g, tokens)
    ensures Refines(AfterRecord(AfterStart(g, c), c), tokens)
  {
  }

  // ----- records -----

  /** Some byte is not whitespace; the first such byte opens an array. */
  predicate Started(text: string)
  {
    exists i | 0 <= i < |text| :: !IsAsciiWhitespace(text[i])
  }

  predicate FirstByteIs(text: string, i: nat)
  {
    i < |text| && !IsAsciiWhitespace(text[i]) && forall j | 0 <= j < i :: IsAsciiWhitespace(text[j])
  }

  predicate RootArray(text: string)
  {
    exists i | 0 <= i < |text| :: FirstByteIs(text, i) && text[i] == '['
  }

  /** A comma or closing bracket directly inside the root array. */
  predicate Separates(before: string, c: char)
  {
    RootArray(before) && Depth(Tokens(before)) == 1 && !InText(Tokens(before)) && (c == ',' || c == ']')
  }

  /** Bytes that belong to a record: inside the root array, or anywhere in another document. */
  predicate Counted(before: string, c: char)
  {
    Started(before + [c]) && !(RootArray(before + [c]) && Depth(Tokens(before)) == 0)
  }

  function RecordStart(text: string): (start: nat)
    ensures start <= |text|
  {
    if |text| == 0 then 0
    else if Separates(text[..|text| - 1], text[|text| - 1]) then |text|
    else RecordStart(text[..|text| - 1])
  }

  function CountedFrom(text: string, start: nat): nat
  {
    if |text| <= start then 0
    else
      var here := if Counted(text[..|text| - 1], text[|text| - 1]) then 1 else 0;
      CountedFrom(text[..|text| - 1], start) + here
  }

  function RecordBytes(text: string): nat
  {
    CountedFrom(text, RecordStart(text))
  }

  lemma StartSnoc(before: string, c: char)
    ensures Started(before + [c]) <==> Started(before) || !IsAsciiWhitespace(c)
    ensures Started(before) ==> (RootArray(before + [c]) <==> RootArray(before))
    ensures !Started(before) ==> (RootArray(before + [c]) <==> c == '[') && !RootArray(before)
  {
    hide IsAsciiWhitespace;
    var text := before + [c];
    assert !IsAsciiWhitespace('[') by { BracketIsNotSpace(); }
    if Started(before) {
      var i :| 0 <= i < |before| && !IsAsciiWhitespace(before[i]);
      assert text[i] == before[i];
      if j :| 0 <= j < |text| && FirstByteIs(text, j) && text[j] == '[' {
        assert j <= i;
        assert forall k | 0 <= k < |before| :: before[k] == text[k];
        assert FirstByteIs(before, j);
      }
      if j :| 0 <= j < |before| && FirstByteIs(before, j) && before[j] == '[' {
        assert FirstByteIs(text, j);
      }
    } else {
      if c == '[' { assert FirstByteIs(text, |before|); }
    }
    if !IsAsciiWhitespace(c) { assert text[|before|] == c; }
  }

  lemma BracketIsNotSpace()
    ensures !IsAsciiWhitespace('[')
  {
  }

  predicate RecordFields(g: Guard, text: string)
  {
    g.started == Started(text) && g.rootArray == RootArray(text) && g.recordBytes == RecordBytes(text)
  }

  lemma RecordStep(g: Guard, before: string, c: char)
    requires RecordFields(g, before) && Refines(g, Tokens(before))
    ensures RecordFields(Advance(g, c), before + [c])
  {
    hide AfterLexeme, Started, RootArray, Tokens, Refines;
    StartSnoc(before, c);
    LexemeKeepsRecord(AfterRecord(AfterStart(g, c), c), c);
    RefinesDepth(g, Tokens(before));
    assert (before + [c])[..|before|] == before;
    BracketIsNotSpace();
  }

  lemma LexemeKeepsRecord(g: Guard, c: char)
    ensures var a := AfterLexeme(g, c);
      a.started == g.started && a.rootArray == g.rootArray && a.recordBytes == g.recordBytes
  {
  }

  lemma RefinesDepth(g: Guard, tokens: seq<Token>)
    requires Refines(g, tokens)
    ensures g.depth == Depth(tokens) && g.inString == InText(tokens)
  {
  }

  lemma NothingRecorded(text: string)
    requires |text| == 0
    ensures RecordFields(Run(text), text)
  {
  }

  lemma {:induction false} GuardCountsRecords(text: string)
    ensures RecordFields(Run(text), text)
  {
    hide Advance, RecordFields, Refines;
    if |text| == 0 {
      NothingRecorded(text);
    } else {
      var front := text[..|text| - 1];
      GuardCountsRecords(front);
      GuardRefinesLexer(front);
      RecordStep(Run(front), front, text[|text| - 1]);
      assert text == front + [text[|text| - 1]];
    }
  }

  /** Inside the root array the record is everything since the last separator. */
  lemma {:induction false} RecordIsWhole(text: string, start: nat)
    requires start <= |text| && RootArray(text[..start])
    requires forall i | start <= i < |text| :: Depth(Tokens(text[..i])) >= 1
    ensures CountedFrom(text, start) == |text| - start
    decreases |text|
  {
    hide Started, RootArray, Tokens, Depth;
    if |text| > start {
      var front, last := text[..|text| - 1], text[|text| - 1];
      assert front[..start] == text[..start];
      forall i | start <= i < |front| ensures Depth(Tokens(front[..i])) >= 1 { assert front[..i] == text[..i]; }
      RecordIsWhole(front, start);
      assert Depth(Tokens(text[..|text| - 1])) >= 1;
      RootArrayStarted(text, start);
      assert text == front + [last];
    }
  }

  lemma RootArrayStarted(text: string, start: nat)
    requires start <= |text| && RootArray(text[..start])
    ensures Started(text)
  {
    var i :| 0 <= i < start && FirstByteIs(text[..start], i) && text[..start][i] == '[';
    assert text[i] == text[..start][i];
  }

  // ----- the bytes, one by one -----

  lemma RunNext(text: string, byte: char)
    ensures Run(text + [byte]) == Advance(Run(text), byte)
  {
    assert (text + [byte])[..|text|] == text;
  }

  /** Outside strings a bracket, brace, comma, colon or blank ends a literal, and only brackets and braces change
      the depth. */
  lemma MarkByte(text: string, mark: char)
    requires !Run(text).inString
    requires mark in ['[', ']', '{', '}', ',', ':', ' ', '\t', '\n', '\r']
    ensures var before, after := Run(text), Run(text + [mark]);
      && !after.inString && !after.number && after.numericGrammar == before.numericGrammar
      && (mark in ['[', '{'] ==> after.depth == before.depth + 1)
      && (mark in [']', '}'] ==> after.depth == if before.depth == 0 then 0 else before.depth - 1)
      && (mark !in ['[', ']', '{', '}'] ==> after.depth == before.depth)
  {
    hide Run, Advance;
    RunNext(text, mark);
    MarkStep(Run(text), mark);
  }

  lemma MarkStep(g: Guard, mark: char)
    requires !g.inString
    requires mark in ['[', ']', '{', '}', ',', ':', ' ', '\t', '\n', '\r']
    ensures var after := Advance(g, mark);
      && !after.inString && !after.number && after.numericGrammar == g.numericGrammar
      && (mark in ['[', '{'] ==> after.depth == g.depth + 1)
      && (mark in [']', '}'] ==> after.depth == if g.depth == 0 then 0 else g.depth - 1)
      && (mark !in ['[', ']', '{', '}'] ==> after.depth == g.depth)
  {
    hide Pushed, Finished, IsAsciiWhitespace;
    RecordOnly(g, mark);
  }

  lemma RecordOnly(g: Guard, byte: char)
    ensures var h := AfterRecord(AfterStart(g, byte), byte);
      && h.inString == g.inString && h.escaped == g.escaped && h.depth == g.depth && h.number == g.number
      && h.scalarBytes == g.scalarBytes && h.decimal == g.decimal && h.numericGrammar == g.numericGrammar
  {
    hide IsAsciiWhitespace;
  }

  lemma LiteralStep(g: Guard, byte: char)
    requires !g.inString && byte !in ['"', '[', ']', '{', '}', ',', ':', ' ', '\t', '\n', '\r']
    ensures var after := Advance(g, byte);
      && after.number && !after.inString && after.depth == g.depth
      && after.decimal == Pushed(if g.number then g.decimal else START, byte)
      && after.scalarBytes == (if g.number then g.scalarBytes else 0) + 1
      && after.numericGrammar == Finished(after.decimal)
  {
    hide Pushed, Finished, IsAsciiWhitespace, AfterRecord, AfterStart;
    RecordOnly(g, byte);
  }

  lemma StringStep(g: Guard, byte: char)
    ensures var after := Advance(g, byte);
      && (!g.inString && byte == '"' ==>
            && after.inString && !after.escaped && after.scalarBytes == 0
            && after.depth == g.depth && after.numericGrammar == g.numericGrammar)
      && (g.inString && !g.escaped && byte == '"' ==>
            !after.inString && after.scalarBytes == 0 && after.depth == g.depth)
      && (g.inString && (g.escaped || byte != '"') ==>
            && after.inString && (after.escaped <==> !g.escaped && byte == '\\')
            && after.scalarBytes == g.scalarBytes + 1
            && after.depth == g.depth && after.numericGrammar == g.numericGrammar)
  {
    hide Pushed, Finished, IsAsciiWhitespace, AfterRecord, AfterStart;
    RecordOnly(g, byte);
  }

  /** After such a byte, every run of other bytes is a literal of its own: it is counted from its start, it is the
      literal whose class is published, and it leaves the depth alone. */
  lemma {:induction false} LiteralPublished(text: string, mark: char, run: string)
    requires !Run(text).inString && |run| > 0
    requires mark in ['[', ']', '{', '}', ',', ':', ' ', '\t', '\n', '\r']
    requires forall i | 0 <= i < |run| :: run[i] !in ['"', '[', ']', '{', '}', ',', ':', ' ', '\t', '\n', '\r']
    ensures var after := Run(text + [mark] + run);
      && after.numericGrammar == Classify(run) && after.scalarBytes == |run|
      && after.number && after.decimal == Scanned(run)
      && !after.inString && after.depth == Run(text + [mark]).depth
  {
    hide Pushed, Finished, Run, Advance, Scanned;
    var front, last := run[..|run| - 1], run[|run| - 1];
    MarkByte(text, mark);
    if |front| > 0 {
      LiteralPublished(text, mark, front);
    } else {
      assert text + [mark] + front == text + [mark];
    }
    assert text + [mark] + run == (text + [mark] + front) + [last];
    assert run == front + [last];
    RunNext(text + [mark] + front, last);
    LiteralStep(Run(text + [mark] + front), last);
    ScannedSnoc(front, last);
  }

  /** A quote outside a string starts one; bytes other than quotes and backslashes are its body, and leave the
      depth and the published class alone. */
  lemma {:induction false} QuotedBody(text: string, body: string)
    requires !Run(text).inString && forall i | 0 <= i < |body| :: body[i] != '"' && body[i] != '\\'
    ensures var after := Run(text + ['"'] + body);
      && after.inString && !after.escaped && after.scalarBytes == |body|
      && after.depth == Run(text).depth && after.numericGrammar == Run(text).numericGrammar
  {
    hide Run, Advance;
    if |body| == 0 {
      assert text + ['"'] + body == text + ['"'];
      RunNext(text, '"');
      StringStep(Run(text), '"');
    } else {
      var front, last := body[..|body| - 1], body[|body| - 1];
      QuotedBody(text, front);
      assert text + ['"'] + body == (text + ['"'] + front) + [last];
      RunNext(text + ['"'] + front, last);
      StringStep(Run(text + ['"'] + front), last);
    }
  }

  /** Within a string a backslash takes the next byte with it, whatever it is, and any other quote ends it. */
  lemma EscapeAndEnd(text: string, byte: char)
    requires Run(text).inString && !Run(text).escaped
    ensures var after := Run(text + ['\\'] + [byte]);
      after.inString && !after.escaped && after.scalarBytes == Run(text).scalarBytes + 2
    ensures var after := Run(text + ['"']);
      !after.inString && after.scalarBytes == 0 && after.depth == Run(text).depth
  {
    hide Run, Advance;
    RunNext(text, '"');
    StringStep(Run(text), '"');
    RunNext(text, '\\');
    StringStep(Run(text), '\\');
    RunNext(text + ['\\'], byte);
    StringStep(Run(text + ['\\']), byte);
  }

  /** Blanks of any kind before a document are nothing, and the first other byte starts it: an array exactly if it
      is an opening bracket. */
  lemma {:induction false} DocumentStarts(blanks: string, first: char)
    requires forall i | 0 <= i < |blanks| :: blanks[i] in [' ', '\t', '\n', '\r', '\U{c}']
    ensures !Run(blanks).started && !Run(blanks).rootArray && Run(blanks).recordBytes == 0
    ensures first !in [' ', '\t', '\n', '\r', '\U{c}'] ==>
      Run(blanks + [first]).started && (Run(blanks + [first]).rootArray <==> first == '[')
  {
    hide Pushed, Finished, AfterLexeme;
    if |blanks| > 0 {
      var front, last := blanks[..|blanks| - 1], blanks[|blanks| - 1];
      DocumentStarts(front, first);
      LexemeKeepsRecord(AfterRecord(AfterStart(Run(front), last), last), last);
    }
    RunNext(blanks, first);
    LexemeKeepsRecord(AfterRecord(AfterStart(Run(blanks), first), first), first);
  }

  // ----- acceptance -----

  /** A stream stays within the limits: string bodies, literal runs, depth and records. */
  predicate WithinLimits(text: string, limits: Limits)
  {
    var tokens := Tokens(text);
    && Depth(tokens) <= limits.maxJsonDepth
    && RecordBytes(text) <= limits.maxRawRecordBytes
    && (InText(tokens) ==> |tokens[|tokens| - 1].body| <= limits.maxScalarBytes * 6)
    && (InLiteral(tokens) ==> |tokens[|tokens| - 1].run| <= limits.maxScalarBytes)
  }

  lemma FitsIffWithinLimits(text: string, limits: Limits)
    ensures Fits(Run(text), limits) <==> WithinLimits(text, limits)
  {
    hide Run, Tokens, RecordBytes, Depth, Scanned, LastLiteralClass;
    GuardRefinesLexer(text);
    GuardCountsRecords(text);
  }

  /** Reads a stream through the guard; `accepted` counts the bytes let through. */
  method ReadThrough(text: string, limits: Limits) returns (accepted: nat, grammar: DecimalGrammar)
    ensures accepted <= |text|
    ensures forall k | 0 <= k <= accepted :: WithinLimits(text[..k], limits)
    ensures accepted < |text| ==> !WithinLimits(text[..accepted + 1], limits)
    ensures accepted == |text| ==> grammar == LastLiteralClass(Tokens(text))
  {
    hide WithinLimits, Advance, Fits, Run, Tokens, LastLiteralClass;
    var guard := new Observer(limits);
    RunEmpty();
    FitsIffWithinLimits("", limits);
    accepted := 0;
    grammar := Other;
    while accepted < |text|
      invariant accepted <= |text| && fresh(guard) && fresh(guard.decimal) && guard.limits == limits
      invariant guard.View() == Run(text[..accepted]) && Fits(guard.View(), limits)
      invariant forall k | 0 <= k <= accepted :: WithinLimits(text[..k], limits)
    {
      RunSnoc(text, accepted);
      FitsIffWithinLimits(text[..accepted + 1], limits);
      var r := guard.Observe(text[accepted]);
      if r.Err? {
        return;
      }
      accepted := accepted + 1;
    }
    assert text[..accepted] == text;
    grammar := guard.numericGrammar;
    ClassOfRun(text);
  }

  lemma RunEmpty()
    ensures Run("") == INITIAL
  {
  }

  lemma RunSnoc(text: string, k: nat)
    requires k < |text|
    ensures Run(text[..k + 1]) == Advance(Run(text[..k]), text[k])
  {
    assert text[..k + 1][..k] == text[..k];
  }

  lemma ClassOfRun(text: string)
    ensures Run(text).numericGrammar == LastLiteralClass(Tokens(text))
  {
    GuardRefinesLexer(text);
  }

  predicate TokenWithin(t: Token, limits: Limits)
  {
    (t.Text? ==> |t.body| <= limits.maxScalarBytes * 6) && (t.Literal? ==> |t.run| <= limits.maxScalarBytes)
  }

  /** In an accepted stream every string and every literal run is within its limit. */
  lemma {:induction false} AllTokensWithin(text: string, limits: Limits)
    requires forall k | 0 <= k <= |text| :: WithinLimits(text[..k], limits)
    ensures forall i | 0 <= i < |Tokens(text)| :: TokenWithin(Tokens(text)[i], limits)
  {
    hide RecordBytes, Depth, IsMark, TrailingBackslashes;
    if |text| > 0 {
      var front := text[..|text| - 1];
      forall k | 0 <= k <= |front| ensures WithinLimits(front[..k], limits) { assert front[..k] == text[..k]; }
      AllTokensWithin(front, limits);
      assert text[..|text|] == text;
      assert WithinLimits(text, limits);
      ExtendLast(Tokens(front), text[|text| - 1]);
      forall i | 0 <= i < |Tokens(text)| ensures TokenWithin(Tokens(text)[i], limits) {
        if i < |Tokens(front)| { assert TokenWithin(Tokens(front)[i], limits); }
      }
    }
  }
}
