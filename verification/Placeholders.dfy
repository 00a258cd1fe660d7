/** Rewriting `?` placeholders to PostgreSQL's `$1, $2, ...`. */
module Placeholders {
  import opened Bytes

  const QUESTION: byte := 63
  const DOLLAR: byte := 36
  const QUOTE: byte := 39
  const DQUOTE: byte := 34
  const DASH: byte := 45
  const SLASH: byte := 47
  const STAR: byte := 42
  const COMMA: byte := 44

  lemma Symbols()
    ensures [QUESTION, DOLLAR, QUOTE, DQUOTE, DASH, SLASH, STAR, COMMA] == Ascii("?$'\"-/*,")
  {
  }

  /** Decimal digits. */
  function Digits(n: nat): bytes
  {
    if n < 10 then [48 + n as byte] else Digits(n / 10) + [48 + (n % 10) as byte]
  }

  /** The number a string of decimal digits denotes. */
  function Value(digits: bytes): int
  {
    if digits == [] then 0 else 10 * Value(digits[..|digits| - 1]) + (digits[|digits| - 1] as int - 48)
  }

  /** The digits denote the number, in the usual form: digits only, and no leading zero but in `0` itself. */
  lemma {:induction false} DigitsDenote(n: nat)
    ensures Value(Digits(n)) == n
    ensures Digits(n) != [] && (forall i :: 0 <= i < |Digits(n)| ==> 48 <= Digits(n)[i] <= 57)
    ensures n > 0 ==> Digits(n)[0] != 48
  {
    if n >= 10 {
      DigitsDenote(n / 10);
      var front, last := Digits(n / 10), 48 + (n % 10) as byte;
      assert (front + [last])[..|front|] == front;
    } else {
      assert Digits(n)[..0] == [];
    }
  }

  function Placeholder(k: nat): bytes
  {
    [DOLLAR] + Digits(k)
  }

  // ---- Reference: a recursive lexer --------------------------------------------------------

  /** Length of the rest of a single-quoted literal, behind its opening quote; a doubled quote stays inside. */
  function SingleRest(s: bytes): (n: nat)
    ensures n <= |s|
  {
    if s == [] then 0
    else if s[0] != QUOTE then 1 + SingleRest(s[1..])
    else if |s| > 1 && s[1] == QUOTE then 2 + SingleRest(s[2..])
    else 1
  }

  function DoubleRest(s: bytes): (n: nat)
    ensures n <= |s|
  {
    if s == [] then 0 else if s[0] == DQUOTE then 1 else 1 + DoubleRest(s[1..])
  }

  function LineRest(s: bytes): (n: nat)
    ensures n <= |s|
  {
    if s == [] then 0 else if s[0] == LF then 1 else 1 + LineRest(s[1..])
  }

  function BlockRest(s: bytes): (n: nat)
    ensures n <= |s|
  {
    if s == [] then 0 else if |s| > 1 && s[0] == STAR && s[1] == SLASH then 2 else 1 + BlockRest(s[1..])
  }

  /** A placeholder; a quoted literal or comment, kept whole; any other byte. */
  datatype Token = Param | Literal(text: bytes) | Plain(b: byte)

  function TokenText(t: Token): bytes
  {
    match t
    case Param => [QUESTION]
    case Literal(text) => text
    case Plain(b) => [b]
  }

  function FirstToken(s: bytes): (t: Token)
    requires s != []
    ensures 0 < |TokenText(t)| <= |s| && TokenText(t) == s[..|TokenText(t)|]
  {
    if s[0] == QUOTE then Literal(s[..1 + SingleRest(s[1..])])
    else if s[0] == DQUOTE then Literal(s[..1 + DoubleRest(s[1..])])
    else if |s| > 1 && s[0] == DASH && s[1] == DASH then Literal(s[..2 + LineRest(s[2..])])
    else if |s| > 1 && s[0] == SLASH && s[1] == STAR then Literal(s[..2 + BlockRest(s[2..])])
    else if s[0] == QUESTION then Param
    else Plain(s[0])
  }

  function Tokens(s: bytes): seq<Token>
    decreases |s|
  {
    if s == [] then [] else [FirstToken(s)] + Tokens(s[|TokenText(FirstToken(s))|..])
  }

  /** The text of a token list; placeholders are numbered from `k`. */
  function Render(ts: seq<Token>, k: nat): bytes
  {
    if ts == [] then []
    else if ts[0].Param? then Placeholder(k) + Render(ts[1..], k + 1)
    else TokenText(ts[0]) + Render(ts[1..], k)
  }

  function Source(ts: seq<Token>): bytes
  {
    if ts == [] then [] else TokenText(ts[0]) + Source(ts[1..])
  }

  function Rewrite(query: bytes): bytes
  {
    Render(Tokens(query), 1)
  }

  /** Cutting into tokens loses nothing. */
  lemma {:induction false} TokensSpell(s: bytes)
    ensures Source(Tokens(s)) == s
    decreases |s|
  {
    hide FirstToken, TokenText, Source;
    if s == [] {
      SourceOfNothing();
    } else {
      var t := FirstToken(s);
      var n := |TokenText(t)|;
      TokensSpell(s[n..]);
      SourceCons(t, Tokens(s[n..]));
      assert s == s[..n] + s[n..];
    }
  }

  lemma SourceOfNothing()
    ensures Source([]) == []
  {
  }

  // ---- Where literals and comments begin and end ---------------------------------------------

  /** The inside of a single-quoted literal: any bytes, quotes only doubled. */
  predicate QuotedBody(s: bytes)
  {
    || s == []
    || (s[0] != QUOTE && QuotedBody(s[1..]))
    || (|s| > 1 && s[0] == QUOTE && s[1] == QUOTE && QuotedBody(s[2..]))
  }

  /** A literal ends at the first quote that is not doubled, or with the text. */
  predicate SingleQuoted(text: bytes, rest: bytes)
  {
    && |text| > 0 && text[0] == QUOTE
    && (|| (|text| > 1 && text[|text| - 1] == QUOTE && QuotedBody(text[1..|text| - 1]) && !HasPrefix(rest, [QUOTE]))
        || (rest == [] && QuotedBody(text[1..])))
  }

  predicate DoubleQuoted(text: bytes, rest: bytes)
  {
    && |text| > 0 && text[0] == DQUOTE
    && (forall i :: 0 < i < |text| - 1 ==> text[i] != DQUOTE)
    && ((|text| > 1 && text[|text| - 1] == DQUOTE) || rest == [])
  }

  predicate LineComment(text: bytes, rest: bytes)
  {
    && |text| > 1 && text[0] == DASH && text[1] == DASH
    && (forall i :: 0 <= i < |text| - 1 ==> text[i] != LF)
    && (text[|text| - 1] == LF || rest == [])
  }

  /** A block comment ends at the first star and slash behind its opening. */
  predicate BlockComment(text: bytes, rest: bytes)
  {
    && |text| > 1 && text[0] == SLASH && text[1] == STAR
    && (forall i :: 2 <= i < |text| - 2 ==> !(text[i] == STAR && text[i + 1] == SLASH))
    && ((|text| > 3 && text[|text| - 2] == STAR && text[|text| - 1] == SLASH) || rest == [])
  }

  /** What a token may be, given the text behind it. */
  predicate ProperToken(t: Token, rest: bytes)
  {
    match t
    case Param => true
    case Plain(b) =>
      && b != QUESTION && b != QUOTE && b != DQUOTE
      && !(b == DASH && HasPrefix(rest, [DASH])) && !(b == SLASH && HasPrefix(rest, [STAR]))
    case Literal(text) =>
      SingleQuoted(text, rest) || DoubleQuoted(text, rest) || LineComment(text, rest) || BlockComment(text, rest)
  }

  lemma {:induction false} SingleRestIs(s: bytes)
    ensures var n := SingleRest(s);
            || (0 < n && s[n - 1] == QUOTE && QuotedBody(s[..n - 1]) && !HasPrefix(s[n..], [QUOTE]))
            || (n == |s| && QuotedBody(s))
    decreases |s|
  {
    var n := SingleRest(s);
    if s != [] {
      if s[0] != QUOTE {
        SingleRestIs(s[1..]);
        assert n > 1 ==> s[1..][..n - 2] == s[..n - 1][1..];
        assert s[1..][n - 1..] == s[n..];
      } else if |s| > 1 && s[1] == QUOTE {
        SingleRestIs(s[2..]);
        assert n > 2 ==> s[2..][..n - 3] == s[..n - 1][2..];
        assert s[2..][n - 2..] == s[n..];
      } else {
        assert s[..0] == [];
      }
    }
  }

  lemma {:induction false} DoubleRestIs(s: bytes)
    ensures var n := DoubleRest(s);
            && (forall i :: 0 <= i < n - 1 ==> s[i] != DQUOTE)
            && ((0 < n && s[n - 1] == DQUOTE) || (n == |s| && forall i :: 0 <= i < n ==> s[i] != DQUOTE))
  {
    if s != [] && s[0] != DQUOTE {
      DoubleRestIs(s[1..]);
      assert forall i :: 0 < i < |s| ==> s[i] == s[1..][i - 1];
    }
  }

  lemma {:induction false} LineRestIs(s: bytes)
    ensures var n := LineRest(s);
            && (forall i :: 0 <= i < n - 1 ==> s[i] != LF)
            && ((0 < n && s[n - 1] == LF) || n == |s|)
  {
    if s != [] && s[0] != LF {
      LineRestIs(s[1..]);
      assert forall i :: 0 < i < |s| ==> s[i] == s[1..][i - 1];
    }
  }

  lemma {:induction false} BlockRestIs(s: bytes)
    ensures var n := BlockRest(s);
            && (forall i :: 0 <= i < n - 2 ==> !(s[i] == STAR && s[i + 1] == SLASH))
            && ((1 < n && s[n - 2] == STAR && s[n - 1] == SLASH) || n == |s|)
  {
    if s != [] && !(|s| > 1 && s[0] == STAR && s[1] == SLASH) {
      BlockRestIs(s[1..]);
      assert forall i :: 0 < i < |s| ==> s[i] == s[1..][i - 1];
    }
  }

  lemma FirstTokenProper(s: bytes)
    requires s != []
    ensures ProperToken(FirstToken(s), s[|TokenText(FirstToken(s))|..])
  {
    if s[0] == QUOTE {
      SingleTokenProper(s);
    } else if s[0] == DQUOTE {
      DoubleTokenProper(s);
    } else if |s| > 1 && s[0] == DASH && s[1] == DASH {
      LineTokenProper(s);
    } else if |s| > 1 && s[0] == SLASH && s[1] == STAR {
      BlockTokenProper(s);
    } else {
      assert |s| > 1 ==> s[1..][..1] == [s[1]];
    }
  }

  lemma SingleTokenProper(s: bytes)
    requires s != [] && s[0] == QUOTE
    ensures var n := 1 + SingleRest(s[1..]); SingleQuoted(s[..n], s[n..])
  {
    SingleRestIs(s[1..]);
    hide QuotedBody, SingleRest;
    var n := 1 + SingleRest(s[1..]);
    var text := s[..n];
    assert s[1..][n - 1..] == s[n..];
    assert n > 1 ==> s[1..][..n - 2] == text[1..n - 1];
    assert n == |s| ==> text[1..] == s[1..];
  }

  lemma DoubleTokenProper(s: bytes)
    requires s != [] && s[0] == DQUOTE
    ensures var n := 1 + DoubleRest(s[1..]); DoubleQuoted(s[..n], s[n..])
  {
    DoubleRestIs(s[1..]);
    hide DoubleRest;
    assert forall i :: 0 < i < |s| ==> s[i] == s[1..][i - 1];
  }

  lemma LineTokenProper(s: bytes)
    requires |s| > 1 && s[0] == DASH && s[1] == DASH
    ensures var n := 2 + LineRest(s[2..]); LineComment(s[..n], s[n..])
  {
    LineRestIs(s[2..]);
    hide LineRest;
    assert forall i :: 1 < i < |s| ==> s[i] == s[2..][i - 2];
  }

  lemma BlockTokenProper(s: bytes)
    requires |s| > 1 && s[0] == SLASH && s[1] == STAR
    ensures var n := 2 + BlockRest(s[2..]); BlockComment(s[..n], s[n..])
  {
    BlockRestIs(s[2..]);
    hide BlockRest;
    assert forall i :: 1 < i < |s| ==> s[i] == s[2..][i - 2];
  }

  predicate ProperTokens(ts: seq<Token>)
  {
    ts == [] || (ProperToken(ts[0], Source(ts[1..])) && ProperTokens(ts[1..]))
  }

  /**
    * Every literal and comment begins with its opening and ends at its first closing, or with the text, and every other byte
    * opens none: a `?` that is no placeholder lies inside a literal or comment, and one that is lies outside.
    */
  lemma {:induction false} TokensSound(s: bytes)
    ensures ProperTokens(Tokens(s))
    decreases |s|
  {
    hide FirstToken, TokenText, ProperToken, Source;
    if s != [] {
      var t := FirstToken(s);
      var rest := s[|TokenText(t)|..];
      FirstTokenProper(s);
      TokensSound(rest);
      TokensSpell(rest);
      assert Tokens(s)[1..] == Tokens(rest);
    }
  }

  lemma SourceCons(t: Token, ts: seq<Token>)
    ensures Source([t] + ts) == TokenText(t) + Source(ts)
  {
    assert ([t] + ts)[1..] == ts;
  }

  /** The i-th placeholder from the left gets number i, and everything else stays. */
  function NumberTokens(ts: seq<Token>, k: nat): seq<bytes>
  {
    if ts == [] then []
    else if ts[0].Param? then [Placeholder(k)] + NumberTokens(ts[1..], k + 1)
    else [TokenText(ts[0])] + NumberTokens(ts[1..], k)
  }

  function Params(ts: seq<Token>): nat
  {
    if ts == [] then 0 else Params(ts[1..]) + if ts[0].Param? then 1 else 0
  }

  lemma {:induction false} RenderIsConcat(ts: seq<Token>, k: nat)
    ensures Render(ts, k) == Concat(NumberTokens(ts, k))
  {
    hide Placeholder, TokenText;
    if ts != [] {
      RenderIsConcat(ts[1..], if ts[0].Param? then k + 1 else k);
    }
  }

  lemma {:induction false} NumberedInOrder(ts: seq<Token>, k: nat, i: nat)
    requires i < |ts|
    ensures |NumberTokens(ts, k)| == |ts|
    ensures NumberTokens(ts, k)[i] == if ts[i].Param? then Placeholder(k + Params(ts[..i])) else TokenText(ts[i])
    decreases i
  {
    hide Placeholder, TokenText;
    NumberTokensLength(ts, k);
    if i > 0 {
      NumberedInOrder(ts[1..], if ts[0].Param? then k + 1 else k, i - 1);
      assert ts[..i][1..] == ts[1..][..i - 1];
    }
  }

  lemma {:induction false} NumberTokensLength(ts: seq<Token>, k: nat)
    ensures |NumberTokens(ts, k)| == |ts|
  {
    hide Placeholder, TokenText;
    if ts != [] {
      NumberTokensLength(ts[1..], if ts[0].Param? then k + 1 else k);
    }
  }

  /** What rewriting means: the query is cut into tokens, its placeholders become $1, $2, ... in order, all else is kept. */
  lemma RewriteMeaning(query: bytes)
    ensures var ts := Tokens(query);
            && Source(ts) == query
            && Rewrite(query) == Concat(NumberTokens(ts, 1)) && |NumberTokens(ts, 1)| == |ts|
            && forall i :: 0 <= i < |ts| ==>
                 NumberTokens(ts, 1)[i] == if ts[i].Param? then Placeholder(1 + Params(ts[..i])) else TokenText(ts[i])
  {
    hide Tokens, Source, Render, NumberTokens, Params, Concat, Placeholder, TokenText;
    var ts := Tokens(query);
    TokensSpell(query);
    RenderIsConcat(ts, 1);
    NumberTokensLength(ts, 1);
    forall i | 0 <= i < |ts|
      ensures NumberTokens(ts, 1)[i] == if ts[i].Param? then Placeholder(1 + Params(ts[..i])) else TokenText(ts[i])
    {
      NumberedInOrder(ts, 1, i);
    }
  }

  // ---- The state machine over single bytes -------------------------------------------------

  datatype Mode = Code | InSingle | InDouble | InLine | InBlock

  /** What the machine still writes for the rest of a query, byte by byte with one byte of lookahead. */
  function Scan(s: bytes, mode: Mode, k: nat): bytes
    decreases |s|
  {
    if s == [] then []
    else
      var current := s[0];
      var next: byte := if |s| > 1 then s[1] else 0;
      match mode
      case InLine => [current] + Scan(s[1..], if current == LF then Code else InLine, k)
      case InBlock =>
        if current == STAR && next == SLASH then [current, next] + Scan(s[2..], Code, k)
        else [current] + Scan(s[1..], InBlock, k)
      case InSingle =>
        if current == QUOTE then
          if next == QUOTE then [current, next] + Scan(s[2..], InSingle, k) else [current] + Scan(s[1..], Code, k)
        else [current] + Scan(s[1..], InSingle, k)
      case InDouble => [current] + Scan(s[1..], if current == DQUOTE then Code else InDouble, k)
      case Code =>
        if current == QUOTE then [current] + Scan(s[1..], InSingle, k)
        else if current == DQUOTE then [current] + Scan(s[1..], InDouble, k)
        else if current == DASH && next == DASH then [current, next] + Scan(s[2..], InLine, k)
        else if current == SLASH && next == STAR then [current, next] + Scan(s[2..], InBlock, k)
        else if current == QUESTION then Placeholder(k) + Scan(s[1..], Code, k + 1)
        else [current] + Scan(s[1..], Code, k)
  }

  /** How far the mode entered reaches. */
  function Rest(s: bytes, mode: Mode): (n: nat)
    requires mode != Code
    ensures n <= |s|
  {
    match mode
    case InSingle => SingleRest(s)
    case InDouble => DoubleRest(s)
    case InLine => LineRest(s)
    case InBlock => BlockRest(s)
  }

  lemma Splice(s: bytes, j: nat, n: nat, x: bytes)
    requires j <= n <= |s|
    ensures s[..j] + (s[j..][..n - j] + x) == s[..n] + x
    ensures s[j..][n - j..] == s[n..]
  {
    assert s[..j] + s[j..][..n - j] == s[..n];
  }

  /** Bytes taken in one step of the machine inside a literal or comment, and whether they close it. */
  function StepLen(s: bytes, mode: Mode): nat
    requires s != []
  {
    if |s| > 1 && ((mode == InSingle && s[0] == QUOTE && s[1] == QUOTE) || (mode == InBlock && s[0] == STAR && s[1] == SLASH))
    then 2 else 1
  }

  predicate Closes(s: bytes, mode: Mode)
    requires s != []
  {
    match mode
    case Code => false
    case InSingle => s[0] == QUOTE && StepLen(s, mode) == 1
    case InDouble => s[0] == DQUOTE
    case InLine => s[0] == LF
    case InBlock => StepLen(s, mode) == 2
  }

  lemma ScanStep(s: bytes, mode: Mode, k: nat)
    requires mode != Code && s != []
    ensures var j := StepLen(s, mode);
            && Scan(s, mode, k) == s[..j] + Scan(s[j..], if Closes(s, mode) then Code else mode, k)
            && Rest(s, mode) == if Closes(s, mode) then j else j + Rest(s[j..], mode)
  {
    assert s[..1] == [s[0]];
    if |s| > 1 {
      assert s[..2] == [s[0], s[1]];
    }
  }

  /** Inside a literal or comment nothing is replaced up to its end. */
  lemma {:induction false} ScanRest(s: bytes, mode: Mode, k: nat)
    requires mode != Code
    ensures Scan(s, mode, k) == s[..Rest(s, mode)] + Scan(s[Rest(s, mode)..], Code, k)
    decreases |s|
  {
    if s != [] {
      ScanStep(s, mode, k);
      var j, n := StepLen(s, mode), Rest(s, mode);
      if !Closes(s, mode) {
        ScanRest(s[j..], mode, k);
        hide Scan, Rest, Closes, StepLen;
        Splice(s, j, n, Scan(s[n..], Code, k));
      }
    }
  }

  lemma OpenStep(s: bytes, k: nat)
    requires s != [] && FirstToken(s).Literal?
    ensures var mode := if s[0] == QUOTE then InSingle else if s[0] == DQUOTE then InDouble
                        else if s[0] == DASH then InLine else InBlock;
            var j := if mode == InSingle || mode == InDouble then 1 else 2;
            && Scan(s, Code, k) == s[..j] + Scan(s[j..], mode, k)
            && |TokenText(FirstToken(s))| == j + Rest(s[j..], mode)
  {
    assert s[..1] == [s[0]];
    if |s| > 1 {
      assert s[..2] == [s[0], s[1]];
    }
  }

  lemma PlainStep(s: bytes, k: nat)
    requires s != [] && !FirstToken(s).Literal?
    ensures Scan(s, Code, k) ==
            if FirstToken(s).Param? then Placeholder(k) + Scan(s[1..], Code, k + 1)
            else TokenText(FirstToken(s)) + Scan(s[1..], Code, k)
    ensures |TokenText(FirstToken(s))| == 1
  {
    hide Placeholder;
  }

  lemma RenderStep(s: bytes, k: nat)
    requires s != []
    ensures var t := FirstToken(s);
            var rest := s[|TokenText(t)|..];
            Render(Tokens(s), k) ==
            if t.Param? then Placeholder(k) + Render(Tokens(rest), k + 1) else TokenText(t) + Render(Tokens(rest), k)
  {
    hide FirstToken, TokenText, Placeholder;
    var rest := s[|TokenText(FirstToken(s))|..];
    assert Tokens(s)[1..] == Tokens(rest);
  }

  /** The machine writes what the lexer's tokens render to. */
  lemma {:induction false} ScanIsRender(s: bytes, k: nat)
    ensures Scan(s, Code, k) == Render(Tokens(s), k)
    decreases |s|
  {
    if s == [] {
      ScanNothing(Code, k);
    } else {
      hide Scan, Render, Tokens, FirstToken, Placeholder, Rest;
      var t := FirstToken(s);
      var n := |TokenText(t)|;
      RenderStep(s, k);
      ScanIsRender(s[n..], if t.Param? then k + 1 else k);
      if t.Literal? {
        OpenStep(s, k);
        var mode := if s[0] == QUOTE then InSingle else if s[0] == DQUOTE then InDouble
                    else if s[0] == DASH then InLine else InBlock;
        var j := if mode == InSingle || mode == InDouble then 1 else 2;
        ScanRest(s[j..], mode, k);
        Splice(s, j, n, Scan(s[n..], Code, k));
      } else {
        PlainStep(s, k);
      }
    }
  }

  // ---- The rewriting loop ------------------------------------------------------------------

  lemma {:induction false} ScanWithoutQuestion(s: bytes, mode: Mode, k: nat)
    requires QUESTION !in s
    ensures Scan(s, mode, k) == s
    decreases |s|
  {
    if s == [] {
      ScanNothing(mode, k);
    } else {
      hide Scan, Placeholder;
      ScanByMove(s, mode, k);
      var m := NextMove(s[0], Look(s[1..]), mode, k);
      MoveWithoutQuestion(s, mode, k);
      ScanWithoutQuestion(s[m.passed..], m.mode, m.number);
      assert s == s[..m.passed] + s[m.passed..];
    }
  }

  lemma MoveWithoutQuestion(s: bytes, mode: Mode, k: nat)
    requires s != [] && s[0] != QUESTION
    ensures var m := NextMove(s[0], Look(s[1..]), mode, k);
            0 < m.passed <= |s| && m.written == s[..m.passed]
  {
  }

  /** What the machine does with the byte at `index`: how many bytes it passes, what it writes, and its next mode. */
  datatype Move = Move(passed: nat, written: bytes, mode: Mode, number: nat)

  function NextMove(current: byte, next: byte, mode: Mode, k: nat): Move
  {
    match mode
    case InLine => Move(1, [current], if current == LF then Code else InLine, k)
    case InBlock =>
      if current == STAR && next == SLASH then Move(2, [current, next], Code, k) else Move(1, [current], InBlock, k)
    case InSingle =>
      if current != QUOTE then Move(1, [current], InSingle, k)
      else if next == QUOTE then Move(2, [current, next], InSingle, k) else Move(1, [current], Code, k)
    case InDouble => Move(1, [current], if current == DQUOTE then Code else InDouble, k)
    case Code =>
      if current == QUOTE then Move(1, [current], InSingle, k)
      else if current == DQUOTE then Move(1, [current], InDouble, k)
      else if current == DASH && next == DASH then Move(2, [current, next], InLine, k)
      else if current == SLASH && next == STAR then Move(2, [current, next], InBlock, k)
      else if current == QUESTION then Move(1, Placeholder(k), Code, k + 1)
      else Move(1, [current], Code, k)
  }

  function MoveAt(query: bytes, index: nat, mode: Mode, k: nat): (m: Move)
    requires index < |query|
    ensures 1 <= m.passed <= |query| - index
  {
    NextMove(query[index], if index + 1 < |query| then query[index + 1] else 0, mode, k)
  }

  /** One move of the machine on the query at `index`. */
  lemma ScanMove(query: bytes, index: nat, mode: Mode, k: nat, builder: bytes)
    requires index < |query|
    ensures var m := MoveAt(query, index, mode, k);
            builder + Scan(query[index..], mode, k) == (builder + m.written) + Scan(query[index + m.passed..], m.mode, m.number)
  {
    hide Placeholder;
    var s, m := query[index..], MoveAt(query, index, mode, k);
    assert s[m.passed..] == query[index + m.passed..];
    var x := Scan(query[index + m.passed..], m.mode, m.number);
    assert Scan(s, mode, k) == m.written + x;
    hide Scan, MoveAt;
    Assoc(builder, m.written, x);
  }

  lemma ScanNothing(mode: Mode, k: nat)
    ensures Scan([], mode, k) == []
  {
  }

  /** The four state flags. */
  datatype Flags = Flags(inLineComment: bool, inBlockComment: bool, inSingleQuote: bool, inDoubleQuote: bool) {
    /** The mode the flags stand for; they are tested in this order. */
    function Mode(): Mode
    {
      if inLineComment then InLine else if inBlockComment then InBlock
      else if inSingleQuote then InSingle else if inDoubleQuote then InDouble else Code
    }

    predicate AtMostOne()
    {
      && !(inLineComment && (inBlockComment || inSingleQuote || inDoubleQuote))
      && !(inBlockComment && (inSingleQuote || inDoubleQuote))
      && !(inSingleQuote && inDoubleQuote)
    }
  }

  /** The body of the loop: one byte, or two if the next one belongs to it. */
  method TakeByte(current: byte, next: byte, flags: Flags, placeholderIndex: nat)
    returns (written: bytes, flags': Flags, placeholderIndex': nat, passed: nat)
    requires flags.AtMostOne()
    ensures flags'.AtMostOne()
    ensures Move(passed, written, flags'.Mode(), placeholderIndex') == NextMove(current, next, flags.Mode(), placeholderIndex)
  {
    written, flags', placeholderIndex', passed := [current], flags, placeholderIndex, 1;
    if flags.inLineComment {
      if current == LF {
        flags' := flags.(inLineComment := false);
      }
    } else if flags.inBlockComment {
      if current == STAR && next == SLASH {
        written, passed := written + [next], 2;
        flags' := flags.(inBlockComment := false);
      }
    } else if flags.inSingleQuote {
      if current == QUOTE {
        if next == QUOTE {
          written, passed := written + [next], 2;
        } else {
          flags' := flags.(inSingleQuote := false);
        }
      }
    } else if flags.inDoubleQuote {
      if current == DQUOTE {
        flags' := flags.(inDoubleQuote := false);
      }
    } else if current == QUOTE {
      flags' := flags.(inSingleQuote := true);
    } else if current == DQUOTE {
      flags' := flags.(inDoubleQuote := true);
    } else if current == DASH {
      if next == DASH {
        flags' := flags.(inLineComment := true);
        written, passed := written + [next], 2;
      }
    } else if current == SLASH {
      if next == STAR {
        flags' := flags.(inBlockComment := true);
        written, passed := written + [next], 2;
      }
    } else if current == QUESTION {
      written := Placeholder(placeholderIndex);
      placeholderIndex' := placeholderIndex + 1;
    }
  }

  method RewritePlaceholders(query: bytes) returns (r: bytes)
    ensures r == Rewrite(query)
  {
    hide Rewrite, Scan, NextMove, Index, Render, Tokens;
    RewriteIsScan(query);
    if query == [] || Index(query, [QUESTION]) < 0 {
      NoQuestion(query);
      ScanWithoutQuestion(query, Code, 1);
      return query;
    }

    var builder: bytes := [];
    var placeholderIndex := 1;
    var flags := Flags(false, false, false, false);
    var index := 0;
    assert query[0..] == query;
    assert [] + Rewrite(query) == Rewrite(query);
    while index < |query|
      invariant 0 <= index <= |query| && flags.AtMostOne()
      invariant builder + Scan(query[index..], flags.Mode(), placeholderIndex) == Rewrite(query)
    {
      ScanMove(query, index, flags.Mode(), placeholderIndex, builder);
      ghost var move := MoveAt(query, index, flags.Mode(), placeholderIndex);
      var next: byte := 0;
      if index + 1 < |query| {
        next := query[index + 1];
      }
      var written, passed;
      written, flags, placeholderIndex, passed := TakeByte(query[index], next, flags, placeholderIndex);
      builder := builder + written;
      index := index + passed;
    }
    assert query[|query|..] == [];
    ScanNothing(flags.Mode(), placeholderIndex);
    return builder;
  }

  lemma RewriteIsScan(query: bytes)
    ensures Rewrite(query) == Scan(query, Code, 1)
  {
    ScanIsRender(query, 1);
  }

  lemma NoQuestion(query: bytes)
    requires query == [] || Index(query, [QUESTION]) < 0
    ensures QUESTION !in query
  {
    forall i | 0 <= i < |query|
      ensures query[i] != QUESTION
    {
      assert !OccursAt(query, [QUESTION], i);
      assert query[i..i + 1] == [query[i]];
    }
  }

  // ---- Rewriting twice ---------------------------------------------------------------------

  /** The lookahead: the first byte, or 0. */
  function Look(s: bytes): byte
  {
    if s == [] then 0 else s[0]
  }

  lemma ScanByMove(s: bytes, mode: Mode, k: nat)
    requires s != []
    ensures var m := NextMove(s[0], Look(s[1..]), mode, k);
            m.passed <= |s| && Scan(s, mode, k) == m.written + Scan(s[m.passed..], m.mode, m.number)
  {
    hide Placeholder;
  }

  /** Seen as lookahead, a rewritten text differs from its source at most by `$` for `?`. */
  lemma LookOfScan(s: bytes, mode: Mode, k: nat)
    ensures Look(Scan(s, mode, k)) == Look(s) || (Look(s) == QUESTION && Look(Scan(s, mode, k)) == DOLLAR)
  {
    if s == [] {
      ScanNothing(mode, k);
    } else {
      hide Scan, Digits;
      ScanByMove(s, mode, k);
    }
  }

  /** The machine treats both alike. */
  lemma SameMove(current: byte, next: byte, next': byte, mode: Mode, k: nat, j: nat)
    requires next == next' || (next == QUESTION && next' == DOLLAR)
    requires !(mode == Code && current == QUESTION)
    ensures NextMove(current, next', mode, j) == NextMove(current, next, mode, k).(number := j)
  {
  }

  predicate PlainText(t: bytes)
  {
    forall i :: 0 <= i < |t| ==>
      t[i] != QUOTE && t[i] != DQUOTE && t[i] != DASH && t[i] != SLASH && t[i] != QUESTION
  }

  lemma {:induction false} ScanPlain(t: bytes, s: bytes, k: nat)
    requires PlainText(t)
    ensures Scan(t + s, Code, k) == t + Scan(s, Code, k)
  {
    if t == [] {
      assert t + s == s;
    } else {
      ScanPlain(t[1..], s, k);
      ScanByMove(t + s, Code, k);
      assert (t + s)[1..] == t[1..] + s;
      hide Scan;
      assert t == [t[0]] + t[1..];
      Assoc([t[0]], t[1..], Scan(s, Code, k));
    }
  }

  lemma {:induction false} DigitsPlain(n: nat)
    ensures PlainText(Digits(n))
    ensures Digits(n) != [] && forall i :: 0 <= i < |Digits(n)| ==> 48 <= Digits(n)[i] <= 57
  {
    if n >= 10 {
      DigitsPlain(n / 10);
    }
  }

  /** Placeholders written never change what the machine does: a rewritten text is left as it is. */
  lemma {:induction false} ScanIdempotent(s: bytes, mode: Mode, k: nat, j: nat)
    ensures Scan(Scan(s, mode, k), mode, j) == Scan(s, mode, k)
    decreases |s|
  {
    hide Scan, NextMove, Digits;
    if s == [] {
      ScanNothing(mode, k);
      ScanNothing(mode, j);
    } else {
      var m := NextMove(s[0], Look(s[1..]), mode, k);
      ScanByMove(s, mode, k);
      MoveShape(s, mode, k);
      var out := Scan(s[m.passed..], m.mode, m.number);
      ScanIdempotent(s[m.passed..], m.mode, m.number, j);
      if mode == Code && s[0] == QUESTION {
        DigitsPlain(k);
        ScanPlain(m.written, out, j);
      } else {
        KeptByte(s, mode, k, j);
      }
    }
  }

  lemma MoveShape(s: bytes, mode: Mode, k: nat)
    requires s != []
    ensures var m := NextMove(s[0], Look(s[1..]), mode, k);
            && 1 <= m.passed <= 2 && m.passed <= |s|
            && (if mode == Code && s[0] == QUESTION then m == Move(1, Placeholder(k), Code, k + 1)
                else m.written == s[..m.passed] && m.number == k)
  {
    hide Placeholder;
  }

  lemma KeptByte(s: bytes, mode: Mode, k: nat, j: nat)
    requires s != [] && !(mode == Code && s[0] == QUESTION)
    ensures var m := NextMove(s[0], Look(s[1..]), mode, k);
            var out := Scan(s[m.passed..], m.mode, m.number);
            Scan(m.written + out, mode, j) == m.written + Scan(out, m.mode, j)
  {
    hide Scan, NextMove, Placeholder;
    var m := NextMove(s[0], Look(s[1..]), mode, k);
    MoveShape(s, mode, k);
    var out := Scan(s[m.passed..], m.mode, m.number);
    LookOfScan(s[m.passed..], m.mode, m.number);
    var t := m.written + out;
    ScanByMove(t, mode, j);
    assert t[m.passed..] == out;
    if m.passed == 1 {
      assert t[1..] == out;
      SameMove(s[0], Look(s[1..]), Look(t[1..]), mode, k, j);
    } else {
      assert t[1] == m.written[1] && m.written[1] == s[..2][1];
      assert Look(t[1..]) == s[1] == Look(s[1..]);
      SameMove(s[0], s[1], s[1], mode, k, j);
    }
  }

  /** Rewriting is idempotent on every string. */
  lemma RewriteIdempotent(query: bytes)
    ensures Rewrite(Rewrite(query)) == Rewrite(query)
  {
    RewriteIsScan(query);
    RewriteIsScan(Rewrite(query));
    ScanIdempotent(query, Code, 1, 1);
  }

  // ---- Placeholder lists -------------------------------------------------------------------

  /** strings.Join(items, ","). */
  function JoinComma(items: seq<bytes>): bytes
  {
    if |items| == 0 then []
    else if |items| == 1 then items[0]
    else items[0] + [COMMA] + JoinComma(items[1..])
  }

  /** The entries of PlaceholderList from number `k` on. */
  function Entries(postgres: bool, k: nat, count: nat): (r: seq<bytes>)
    ensures |r| == count
    decreases count
  {
    if count == 0 then [] else [if postgres then Placeholder(k) else [QUESTION]] + Entries(postgres, k + 1, count - 1)
  }

  lemma {:induction false} EntriesAt(postgres: bool, k: nat, count: nat, i: nat)
    requires i < count
    decreases count
    ensures Entries(postgres, k, count)[i] == if postgres then Placeholder(k + i) else [QUESTION]
  {
    hide Placeholder;
    if i > 0 {
      EntriesAt(postgres, k + 1, count - 1, i - 1);
    }
  }

  method PlaceholderList(postgres: bool, count: nat) returns (r: bytes)
    ensures r == JoinComma(Entries(postgres, 1, count))
  {
    hide Placeholder;
    var placeholders := new bytes[count](_ => []);
    for index := 0 to count
      invariant forall i :: 0 <= i < index ==> placeholders[i] == if postgres then Placeholder(i + 1) else [QUESTION]
    {
      if postgres {
        placeholders[index] := Placeholder(index + 1);
      } else {
        placeholders[index] := [QUESTION];
      }
    }
    assert placeholders[..] == Entries(postgres, 1, count) by {
      forall i: nat | i < count
        ensures placeholders[i] == Entries(postgres, 1, count)[i]
      {
        EntriesAt(postgres, 1, count, i);
      }
    }
    r := JoinComma(placeholders[..]);
  }

  lemma {:induction false} ScanList(k: nat, count: nat)
    ensures Scan(JoinComma(Entries(false, k, count)), Code, k) == JoinComma(Entries(true, k, count))
    decreases count
  {
    hide Scan, Placeholder;
    if count == 0 {
      ScanNothing(Code, k);
    } else {
      var q := JoinComma(Entries(false, k + 1, count - 1));
      ScanList(k + 1, count - 1);
      if count == 1 {
        assert Entries(false, k, 1) == [[QUESTION]] && Entries(true, k, 1) == [Placeholder(k)];
        ScanQuestion([], k);
        ScanNothing(Code, k + 1);
        assert [QUESTION] + [] == [QUESTION] && Placeholder(k) + [] == Placeholder(k);
      } else {
        ScanQuestion([COMMA] + q, k);
        ScanPlain([COMMA], q, k + 1);
        assert [QUESTION] + [COMMA] + q == [QUESTION] + ([COMMA] + q);
      }
    }
  }

  lemma ScanQuestion(s: bytes, k: nat)
    ensures Scan([QUESTION] + s, Code, k) == Placeholder(k) + Scan(s, Code, k + 1)
  {
    hide Placeholder;
    assert ([QUESTION] + s)[1..] == s;
  }

  /** The portable list rewrites to the PostgreSQL list of the same length. */
  lemma ListRewrites(count: nat)
    ensures Rewrite(JoinComma(Entries(false, 1, count))) == JoinComma(Entries(true, 1, count))
  {
    RewriteIsScan(JoinComma(Entries(false, 1, count)));
    ScanList(1, count);
  }
}
