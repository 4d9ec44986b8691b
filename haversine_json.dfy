/** The hand-written parser for the haversine input file: a JSON object
    `{ "pairs": [ ... ] }` whose array holds objects with the keys "x0",
    "y0", "x1" and "y1", in that order, each bound to a number.  Every
    sub-parser takes the unread text and returns what is left after it.

    The text is a sequence of Unicode scalar values; because every token the
    parser matches or measures is ASCII, the byte offsets the original
    computes land on the same characters.  A number is kept as its sign and
    its lexeme; the conversion of the lexeme to a 64-bit float is not part of
    this model. */
module HaversineJson {

  /** What a parsing step gives: a value, an error message (the `Err` of the
      original), or a panic (a string slice out of bounds). */
  datatype Result<T> = Ok(value: T) | Err(message: string) | Panic
  {
    predicate IsFailure() { !Ok? }

    function PropagateFailure<U>(): Result<U>
      requires IsFailure()
    {
      if Err? then Err(message) else Panic
    }

    function Extract(): T
      requires Ok?
    {
      value
    }
  }

  /** A number as the file writes it: a minus sign or none, and the run of
      digits and dots after it. */
  datatype Number = Number(negative: bool, lexeme: string)

  datatype Pair = Pair(x0: Number, y0: Number, x1: Number, y1: Number)

  /** `rest` is what is left of `s` after a prefix has been read. */
  predicate SuffixOf(rest: string, s: string)
  {
    |rest| <= |s| && rest == s[|s| - |rest|..]
  }

  lemma SuffixTransitive(a: string, b: string, c: string)
    requires SuffixOf(a, b) && SuffixOf(b, c)
    ensures SuffixOf(a, c)
  {
    assert c[|c| - |b|..][|b| - |a|..] == c[|c| - |a|..];
  }

  // ---------------------------------------------------------------------------
  // Characters

  /** `char::is_whitespace`: the Unicode White_Space property. */
  predicate IsWhitespace(c: char)
    ensures IsWhitespace(c) ==> c !in "0123456789.-{}[]:,\""
  {
    || c == '\t' || c == '\n' || c == '\U{B}' || c == '\U{C}' || c == '\r' || c == ' '
    || c == '\U{85}' || c == '\U{A0}' || c == '\U{1680}' || ('\U{2000}' <= c <= '\U{200A}')
    || c == '\U{2028}' || c == '\U{2029}' || c == '\U{202F}' || c == '\U{205F}' || c == '\U{3000}'
  }

  predicate IsDigit(c: char) { '0' <= c <= '9' }

  /** A character that can continue a number: an ASCII digit or a dot. */
  predicate IsNumeric(c: char) { IsDigit(c) || c == '.' }

  predicate NotWhitespace(c: char) { !IsWhitespace(c) }

  predicate NotNumeric(c: char) { !IsNumeric(c) }

  /** `str::find` with a character predicate: the position of the first
      character that satisfies it. */
  function Find(s: string, p: char -> bool): (r: Option<nat>)
    ensures r.Some? ==> r.value < |s|
  {
    if |s| == 0 then None
    else if p(s[0]) then Some(0)
    else
      match Find(s[1..], p)
      case Some(i) => Some(i + 1)
      case None => None
  }

  /** What `find` finds is the first position that satisfies the predicate;
      when it finds nothing, no position does. */
  lemma {:induction false} FindCases(s: string, p: char -> bool)
    ensures var r := Find(s, p);
      && (r.Some? ==> p(s[r.value]) && forall k :: 0 <= k < r.value ==> !p(s[k]))
      && (r.None? ==> forall k :: 0 <= k < |s| ==> !p(s[k]))
    decreases |s|
  {
    if |s| > 0 && !p(s[0]) {
      FindCases(s[1..], p);
      assert forall k :: 1 <= k < |s| ==> s[k] == s[1..][k - 1];
    }
  }

  datatype Option<T> = None | Some(value: T)

  // ---------------------------------------------------------------------------
  // Tokens

  /** `content.chars().zip(s.chars()).all(|(c, b)| c == b)`: the two agree
      wherever both have a character, compared pair by pair from the front
      until the shorter one runs out. */
  function ZipAll(content: string, s: string): bool
  {
    if |content| == 0 || |s| == 0 then true
    else content[0] == s[0] && ZipAll(content[1..], s[1..])
  }

  /** The same comparison stated position by position. */
  predicate AgreeOnZip(content: string, s: string)
  {
    forall k :: 0 <= k < |content| && k < |s| ==> content[k] == s[k]
  }

  lemma {:induction false} ZipAllAgrees(content: string, s: string)
    ensures ZipAll(content, s) <==> AgreeOnZip(content, s)
    decreases |content|
  {
    if |content| > 0 && |s| > 0 {
      ZipAllAgrees(content[1..], s[1..]);
      if AgreeOnZip(content, s) {
        assert forall k :: 0 <= k < |content| - 1 && k < |s| - 1 ==> content[1..][k] == content[k + 1];
      } else {
        var k :| 0 <= k < |content| && k < |s| && content[k] != s[k];
        if k > 0 {
          assert content[1..][k - 1] != s[1..][k - 1];
        }
      }
    }
  }

  /** `consume`: drop `content` from the front of `slice`.  A mismatch is an
      error; a `slice` that is a proper prefix of `content` passes the check
      and then panics, since the slice after `content` is out of bounds. */
  function Consume(slice: string, content: string): (r: Result<string>)
    ensures r.Ok? ==> slice == content + r.value
  {
    if !ZipAll(content, slice) then Err("Failed to consume \"" + content + "\"")
    else if |slice| < |content| then Panic
    else
      ZipAllAgrees(content, slice);
      assert slice == slice[..|content|] + slice[|content|..];
      Ok(slice[|content|..])
  }

  /** `consume` succeeds exactly when `content` starts `slice`; it panics
      exactly when `slice` is a proper prefix of `content`; otherwise it
      reports the mismatch. */
  lemma ConsumeCases(slice: string, content: string)
    ensures var r := Consume(slice, content);
      && (r.Ok? <==> |content| <= |slice| && slice[..|content|] == content)
      && (r.Panic? <==> |slice| < |content| && slice == content[..|slice|])
      && (r.Err? ==> r.message == "Failed to consume \"" + content + "\"")
  {
    ZipAllAgrees(content, slice);
  }

  /** `whitespace`: drop the leading run of whitespace.  When the text holds
      nothing but whitespace, `find` finds nothing, the index defaults to 0
      and the text comes back unchanged. */
  function Whitespace(slice: string): (r: string)
    ensures SuffixOf(r, slice)
  {
    match Find(slice, NotWhitespace)
    case Some(i) => slice[i..]
    case None => slice
  }

  /** What `whitespace` drops is whitespace, and what it keeps starts with
      something else, except that text made of whitespace alone comes back
      whole. */
  lemma WhitespaceCases(slice: string)
    ensures var r := Whitespace(slice);
      && (forall k :: 0 <= k < |slice| - |r| ==> IsWhitespace(slice[k]))
      && (r == slice || (|r| > 0 && !IsWhitespace(r[0])))
      && (r == slice <==> |slice| == 0 || !IsWhitespace(slice[0]) || forall k :: 0 <= k < |slice| ==> IsWhitespace(slice[k]))
  {
    FindCases(slice, NotWhitespace);
  }

  lemma WhitespaceIdempotent(slice: string)
    ensures Whitespace(Whitespace(slice)) == Whitespace(slice)
  {
    WhitespaceCases(slice);
    WhitespaceCases(Whitespace(slice));
  }

  // ---------------------------------------------------------------------------
  // Numbers

  /** The number of dots in `s`. */
  function DotCount(s: string): (n: nat)
    ensures n <= |s|
  {
    if |s| == 0 then 0 else (if s[0] == '.' then 1 else 0) + DotCount(s[1..])
  }

  /** What Rust's `f64` parser accepts of a run of digits and dots: at least
      one digit (a character that is not a dot) and at most one dot. */
  predicate IsFloatLexeme(s: string)
  {
    && (forall k :: 0 <= k < |s| ==> IsNumeric(s[k]))
    && DotCount(s) < |s|
    && DotCount(s) <= 1
  }

  /** The text of a number as the parser reads it. */
  function NumberText(n: Number): string
  {
    (if n.negative then "-" else "") + n.lexeme
  }

  /** The digits and dots of `slice` up to the first other character. */
  function Lexeme(slice: string, negative: bool): (r: Result<(string, Number)>)
    ensures r.Ok? ==> slice == r.value.1.lexeme + r.value.0 && |r.value.1.lexeme| > 0
    ensures r.Ok? ==> r.value.1.negative == negative
  {
    match Find(slice, NotNumeric)
    case None => Err("Number never ends")
    case Some(len) =>
      var lexeme := slice[..len];
      assert slice == lexeme + slice[len..];
      if IsFloatLexeme(lexeme) then Ok((slice[len..], Number(negative, lexeme)))
      else Err("Failed to parse number: " + lexeme)
  }

  /** `number`: an optional minus sign, then the lexeme.  On empty text the
      check for the sign already panics. */
  function ParseNumber(slice: string): (r: Result<(string, Number)>)
    ensures r.Ok? ==> slice == NumberText(r.value.1) + r.value.0 && |r.value.0| < |slice|
  {
    match Consume(slice, "-")
    case Panic => Panic
    case Ok(rest) =>
      var r := Lexeme(rest, true);
      NumberThen(slice, rest, true, r);
      r
    case Err(_) =>
      var r := Lexeme(slice, false);
      NumberThen(slice, slice, false, r);
      r
  }

  /** The text of a number read after its sign, followed by what is left. */
  lemma NumberThen(whole: string, afterSign: string, negative: bool, r: Result<(string, Number)>)
    requires negative ==> whole == "-" + afterSign
    requires !negative ==> whole == afterSign
    requires r.Ok? ==> afterSign == r.value.1.lexeme + r.value.0 && |r.value.1.lexeme| > 0 && r.value.1.negative == negative
    ensures r.Ok? ==> whole == NumberText(r.value.1) + r.value.0 && |r.value.0| < |whole|
  {
    if r.Ok? {
      var (rest, n) := r.value;
      if negative {
        assert "-" + (n.lexeme + rest) == ("-" + n.lexeme) + rest;
      } else {
        assert "" + n.lexeme == n.lexeme;
      }
    }
  }

  /** The lexeme is the longest run of digits and dots, followed by
      something else, and Rust's float parser accepts it; a run that reaches
      the end of the text is "Number never ends". */
  lemma LexemeCases(slice: string, negative: bool)
    ensures var r := Lexeme(slice, negative);
      && (r.Ok? ==>
        var (rest, n) := r.value;
        && n.negative == negative && IsFloatLexeme(n.lexeme) && |rest| > 0 && !IsNumeric(rest[0]))
      && (r == Err("Number never ends") <==> forall k :: 0 <= k < |slice| ==> IsNumeric(slice[k]))
      && !r.Panic?
  {
    FindCases(slice, NotNumeric);
  }

  /** `number` panics exactly on empty text; a number it reads is negative
      exactly when the text starts with a minus sign. */
  lemma NumberCases(slice: string)
    ensures var r := ParseNumber(slice);
      && (r.Panic? <==> |slice| == 0)
      && (r.Ok? ==>
        var (rest, n) := r.value;
        && (n.negative <==> slice[0] == '-')
        && IsFloatLexeme(n.lexeme) && |rest| > 0 && !IsNumeric(rest[0]))
  {
    ConsumeCases(slice, "-");
    if |slice| > 0 {
      if slice[0] == '-' {
        LexemeCases(slice[1..], true);
      } else {
        LexemeCases(slice, false);
      }
    }
  }

  // ---------------------------------------------------------------------------
  // Pairs

  /** One key of a pair object: the quoted key, a colon and a number, with
      whitespace allowed between them. */
  function ParseField(slice: string, key: string): (r: Result<(string, Number)>)
    ensures r.Ok? ==> SuffixOf(r.value.0, slice) && |r.value.0| < |slice|
  {
    match Consume(slice, key)
    case Ok(afterKey) =>
      (match Consume(Whitespace(afterKey), ":")
       case Ok(afterColon) =>
         (match ParseNumber(Whitespace(afterColon))
          case Ok((rest, n)) =>
            SuffixTransitive(rest, Whitespace(afterColon), afterColon);
            SuffixTransitive(rest, afterColon, Whitespace(afterKey));
            SuffixTransitive(rest, Whitespace(afterKey), afterKey);
            SuffixTransitive(rest, afterKey, slice);
            Ok((rest, n))
          case Err(m) => Err(m)
          case Panic => Panic)
       case Err(m) => Err(m)
       case Panic => Panic)
    case Err(m) => Err(m)
    case Panic => Panic
  }

  /** The comma between two fields, with whitespace on both sides. */
  function ParseComma(slice: string): (r: Result<string>)
    ensures r.Ok? ==> SuffixOf(r.value, slice) && |r.value| < |slice|
  {
    var afterComma :- Consume(Whitespace(slice), ",");
    SuffixTransitive(afterComma, Whitespace(slice), slice);
    SuffixTransitive(Whitespace(afterComma), afterComma, slice);
    Ok(Whitespace(afterComma))
  }

  /** The keys of a pair object, in order. */
  const PairKeys: seq<string> := ["\"x0\"", "\"y0\"", "\"x1\"", "\"y1\""]

  /** The keys `keys` in order, each with its colon and number, and a comma
      between one key's number and the next key. */
  function ParseKeys(slice: string, keys: seq<string>): (r: Result<(string, seq<Number>)>)
    requires |keys| >= 1
    ensures r.Ok? ==> SuffixOf(r.value.0, slice) && |r.value.0| < |slice| && |r.value.1| == |keys|
    decreases |keys|
  {
    match ParseField(slice, keys[0])
    case Ok((afterField, n)) =>
      if |keys| == 1 then Ok((afterField, [n]))
      else
        (match ParseComma(afterField)
         case Ok(afterComma) =>
           (match ParseKeys(afterComma, keys[1..])
            case Ok((rest, more)) =>
              SuffixTransitive(rest, afterComma, afterField);
              SuffixTransitive(rest, afterField, slice);
              Ok((rest, [n] + more))
            case Err(m) => Err(m)
            case Panic => Panic)
         case Err(m) => Err(m)
         case Panic => Panic)
    case Err(m) => Err(m)
    case Panic => Panic
  }

  /** A key, the comma after it, and the keys after that. */
  lemma ParseKeysNext(slice: string, keys: seq<string>, afterField: string, n: Number,
                      afterComma: string, rest: string, more: seq<Number>)
    requires |keys| >= 2
    requires ParseField(slice, keys[0]) == Ok((afterField, n))
    requires ParseComma(afterField) == Ok(afterComma)
    requires ParseKeys(afterComma, keys[1..]) == Ok((rest, more))
    ensures ParseKeys(slice, keys) == Ok((rest, [n] + more))
  {
  }

  /** The four keys of a pair object in the order x0, y0, x1, y1, separated
      by commas. */
  function ParseFields(slice: string): (r: Result<(string, Pair)>)
    ensures r.Ok? ==> SuffixOf(r.value.0, slice) && |r.value.0| < |slice|
  {
    match ParseKeys(slice, PairKeys)
    case Ok((rest, ns)) => Ok((rest, Pair(ns[0], ns[1], ns[2], ns[3])))
    case Err(m) => Err(m)
    case Panic => Panic
  }

  /** `pair`: `{`, the four keys, and `}`, whitespace allowed around each. */
  function ParsePair(slice: string): (r: Result<(string, Pair)>)
    ensures r.Ok? ==> SuffixOf(r.value.0, slice) && |r.value.0| < |slice|
  {
    var afterBrace :- Consume(slice, "{");
    var (afterFields, pair) :- ParseFields(Whitespace(afterBrace));
    var rest :- Consume(Whitespace(afterFields), "}");
    SuffixTransitive(rest, Whitespace(afterFields), afterFields);
    SuffixTransitive(rest, afterFields, Whitespace(afterBrace));
    SuffixTransitive(rest, Whitespace(afterBrace), afterBrace);
    SuffixTransitive(rest, afterBrace, slice);
    Ok((rest, pair))
  }

  /** `pair` when each of its steps succeeds. */
  lemma ParsePairOk(slice: string, afterBrace: string, afterFields: string, rest: string, ns: seq<Number>)
    requires Consume(slice, "{") == Ok(afterBrace)
    requires ParseKeys(Whitespace(afterBrace), PairKeys) == Ok((afterFields, ns))
    requires Consume(Whitespace(afterFields), "}") == Ok(rest)
    ensures ParsePair(slice) == Ok((rest, Pair(ns[0], ns[1], ns[2], ns[3])))
  {
  }

  // ---------------------------------------------------------------------------
  // The array

  /** The pairs read before a step, put in front of what the step reads. */
  function Prepend(read: seq<Pair>, r: Result<(string, seq<Pair>)>): Result<(string, seq<Pair>)>
  {
    match r
    case Ok((rest, items)) => Ok((rest, read + items))
    case Err(m) => Err(m)
    case Panic => Panic
  }

  lemma PrependTwice(a: seq<Pair>, b: seq<Pair>, r: Result<(string, seq<Pair>)>)
    ensures Prepend(a, Prepend(b, r)) == Prepend(a + b, r)
  {
    if r.Ok? {
      assert a + (b + r.value.1) == a + b + r.value.1;
    }
  }

  lemma PrependNothing(r: Result<(string, seq<Pair>)>)
    ensures Prepend([], r) == r
  {
    if r.Ok? {
      assert [] + r.value.1 == r.value.1;
    }
  }

  lemma PrependOne(pair: Pair, rest: string)
    ensures Prepend([pair], Ok((rest, []))) == Ok((rest, [pair]))
  {
    assert [pair] + [] == [pair];
  }

  /** One turn of the loop of `array`: whitespace, a pair, whitespace, and
      then a comma or not.  The flag tells whether the comma was there, and
      the text is what follows the comma, or the pair's trailing whitespace
      when there was none. */
  function ElementTurn(slice: string): (r: Result<(string, Pair, bool)>)
    ensures r.Ok? ==> SuffixOf(r.value.0, slice)
    ensures r.Ok? && r.value.2 ==> |r.value.0| < |slice|
  {
    match ParsePair(Whitespace(slice))
    case Ok((afterPair, pair)) =>
      var afterSpace := Whitespace(afterPair);
      SuffixTransitive(afterSpace, afterPair, Whitespace(slice));
      SuffixTransitive(afterSpace, Whitespace(slice), slice);
      (match Consume(afterSpace, ",")
       case Ok(afterComma) =>
         SuffixTransitive(afterComma, afterSpace, slice);
         Ok((afterComma, pair, true))
       case Err(_) => Ok((afterSpace, pair, false))
       case Panic => Panic)
    case Err(m) => Err(m)
    case Panic => Panic
  }

  /** What the loop of `array` reads from the text after `[`: turns, for as
      long as each one ends in a comma. */
  function Elements(slice: string): (r: Result<(string, seq<Pair>)>)
    ensures r.Ok? ==> SuffixOf(r.value.0, slice) && |r.value.1| >= 1
    decreases |slice|
  {
    match ElementTurn(slice)
    case Ok((afterTurn, pair, more)) =>
      if !more then Ok((afterTurn, [pair]))
      else
        (match Elements(afterTurn)
         case Ok((rest, items)) =>
           SuffixTransitive(rest, afterTurn, slice);
           Ok((rest, [pair] + items))
         case Err(m) => Err(m)
         case Panic => Panic)
    case Err(m) => Err(m)
    case Panic => Panic
  }

  /** A turn whose pair is followed by a comma. */
  lemma ElementTurnMore(slice: string, afterPair: string, pair: Pair, afterComma: string)
    requires ParsePair(Whitespace(slice)) == Ok((afterPair, pair))
    requires Consume(Whitespace(afterPair), ",") == Ok(afterComma)
    ensures ElementTurn(slice) == Ok((afterComma, pair, true))
  {
  }

  /** A turn whose pair is not followed by a comma. */
  lemma ElementTurnLast(slice: string, afterPair: string, pair: Pair)
    requires ParsePair(Whitespace(slice)) == Ok((afterPair, pair))
    requires Consume(Whitespace(afterPair), ",").Err?
    ensures ElementTurn(slice) == Ok((Whitespace(afterPair), pair, false))
  {
  }

  /** A turn that ends in a comma puts its pair in front of what the
      following turns read. */
  lemma ElementsMore(slice: string, rest: string, pair: Pair)
    requires ElementTurn(slice) == Ok((rest, pair, true))
    ensures Elements(slice) == Prepend([pair], Elements(rest))
  {
  }

  /** A turn without a comma is the last one. */
  lemma ElementsLast(slice: string, rest: string, pair: Pair)
    requires ElementTurn(slice) == Ok((rest, pair, false))
    ensures Elements(slice) == Ok((rest, [pair]))
  {
  }

  /** A failed turn is the failure of the whole loop. */
  lemma ElementsFail(slice: string)
    requires !ElementTurn(slice).Ok?
    ensures Elements(slice) == if ElementTurn(slice).Err? then Err(ElementTurn(slice).message) else Panic
  {
  }

  /** `array`: `[`, the elements, whitespace and `]`. */
  function ParseArray(slice: string): (r: Result<(string, seq<Pair>)>)
    ensures r.Ok? ==> SuffixOf(r.value.0, slice) && |r.value.1| >= 1
  {
    match Consume(slice, "[")
    case Ok(afterBracket) =>
      (match Elements(afterBracket)
       case Ok((afterItems, items)) =>
         (match Consume(Whitespace(afterItems), "]")
          case Ok(rest) =>
            assert SuffixOf(afterBracket, slice);
            SuffixTransitive(rest, Whitespace(afterItems), afterItems);
            SuffixTransitive(rest, afterItems, afterBracket);
            SuffixTransitive(rest, afterBracket, slice);
            Ok((rest, items))
          case Err(m) => Err(m)
          case Panic => Panic)
       case Err(m) => Err(m)
       case Panic => Panic)
    case Err(m) => Err(m)
    case Panic => Panic
  }

  /** `array` on the outcomes of its steps. */
  lemma ParseArraySteps(slice: string)
    ensures var open := Consume(slice, "[");
      && (open.Err? ==> ParseArray(slice) == Err(open.message))
      && (open.Panic? ==> ParseArray(slice) == Panic)
      && (open.Ok? ==>
        var items := Elements(open.value);
        && (items.Err? ==> ParseArray(slice) == Err(items.message))
        && (items.Panic? ==> ParseArray(slice) == Panic)
        && (items.Ok? ==>
          var close := Consume(Whitespace(items.value.0), "]");
          && (close.Ok? ==> ParseArray(slice) == Ok((close.value, items.value.1)))
          && (close.Err? ==> ParseArray(slice) == Err(close.message))
          && (close.Panic? ==> ParseArray(slice) == Panic)))
  {
  }

  /** `array` when each of its steps succeeds. */
  lemma ParseArrayOk(slice: string, afterBracket: string, afterItems: string, items: seq<Pair>, rest: string)
    requires Consume(slice, "[") == Ok(afterBracket)
    requires Elements(afterBracket) == Ok((afterItems, items))
    requires Consume(Whitespace(afterItems), "]") == Ok(rest)
    ensures ParseArray(slice) == Ok((rest, items))
  {
  }

  /** The text after the array of `array`, or how it failed. */
  function AfterArray(r: Result<(string, seq<Pair>)>): Result<string>
  {
    match r
    case Ok((rest, _)) => Ok(rest)
    case Err(m) => Err(m)
    case Panic => Panic
  }

  /** The body of the loop of `array`: one turn, stated by what it does to
      the rest of the loop. */
  method ReadElement(slice: string) returns (turn: Result<(string, Pair, bool)>)
    ensures turn.Err? ==> Elements(slice) == Err(turn.message)
    ensures turn.Panic? ==> Elements(slice) == Panic
    ensures turn.Ok? && turn.value.2 ==>
      |turn.value.0| < |slice| && Elements(slice) == Prepend([turn.value.1], Elements(turn.value.0))
    ensures turn.Ok? && !turn.value.2 ==> Elements(slice) == Ok((turn.value.0, [turn.value.1]))
  {
    var beforePair := Whitespace(slice);
    var next := ParsePair(beforePair);
    if !next.Ok? {
      turn := if next.Err? then Err(next.message) else Panic;
    } else {
      var (afterPair, pair) := next.value;
      var afterSpace := Whitespace(afterPair);
      match Consume(afterSpace, ",") {
        case Ok(afterComma) => turn := Ok((afterComma, pair, true));
        case Err(_) => turn := Ok((afterSpace, pair, false));
        case Panic => turn := Panic;
      }
    }
    assert turn == ElementTurn(slice);
    if !turn.Ok? {
      ElementsFail(slice);
    } else if turn.value.2 {
      ElementsMore(slice, turn.value.0, turn.value.1);
    } else {
      ElementsLast(slice, turn.value.0, turn.value.1);
    }
  }

  /** A failed turn ends the whole loop with the same failure. */
  lemma ElementsFailed(slice: string, rest: string, read: seq<Pair>, turn: Result<(string, Pair, bool)>)
    requires Elements(slice) == Prepend(read, Elements(rest))
    requires turn.Err? ==> Elements(rest) == Err(turn.message)
    requires turn.Panic? ==> Elements(rest) == Panic
    requires !turn.Ok?
    ensures AfterArray(Elements(slice)) == if turn.Err? then Err(turn.message) else Panic
  {
  }

  /** A turn with no comma after its pair ends the loop with that pair last. */
  lemma ElementsStopped(slice: string, rest: string, read: seq<Pair>, after: string, pair: Pair)
    requires Elements(slice) == Prepend(read, Elements(rest))
    requires Elements(rest) == Ok((after, [pair]))
    ensures Elements(slice) == Ok((after, read + [pair]))
  {
  }

  /** A turn with a comma after its pair moves the pair into what was read. */
  lemma ElementsContinued(slice: string, rest: string, read: seq<Pair>, after: string, pair: Pair)
    requires Elements(slice) == Prepend(read, Elements(rest))
    requires Elements(rest) == Prepend([pair], Elements(after))
    ensures Elements(slice) == Prepend(read + [pair], Elements(after))
  {
    PrependTwice(read, [pair], Elements(after));
  }

  /** Pushing onto the caller's vector appends to what was read. */
  lemma Pushed(pairs: seq<Pair>, read: seq<Pair>, pair: Pair)
    ensures pairs + read + [pair] == pairs + (read + [pair])
  {
  }

  /** What the caller's vector held stays in front. */
  lemma KeptInFront(pairs: seq<Pair>, read: seq<Pair>)
    ensures |pairs| <= |pairs + read| && (pairs + read)[..|pairs|] == pairs
  {
  }

  /** The loop of `array`: it pushes each pair onto the caller's vector as
      it is read, and stops at the first pair not followed by a comma. */
  method ArrayElements(slice: string, pairs: seq<Pair>) returns (r: Result<string>, items: seq<Pair>)
    ensures r == AfterArray(Elements(slice))
    ensures r.Ok? ==> items == pairs + Elements(slice).value.1
    ensures |pairs| <= |items| && items[..|pairs|] == pairs
  {
    items := pairs;
    var rest := slice;
    ghost var read: seq<Pair> := [];
    PrependNothing(Elements(slice));
    while true
      invariant items == pairs + read
      invariant Elements(slice) == Prepend(read, Elements(rest))
      decreases |rest|
    {
      var turn := ReadElement(rest);
      if !turn.Ok? {
        ElementsFailed(slice, rest, read, turn);
        KeptInFront(pairs, read);
        return (if turn.Err? then Err(turn.message) else Panic), items;
      }
      var (afterElement, pair, more) := turn.value;
      Pushed(pairs, read, pair);
      KeptInFront(pairs, read + [pair]);
      if !more {
        ElementsStopped(slice, rest, read, afterElement, pair);
      } else {
        ElementsContinued(slice, rest, read, afterElement, pair);
      }
      items := items + [pair];
      read := read + [pair];
      rest := afterElement;
      if !more {
        return Ok(rest), items;
      }
    }
  }

  /** `array`: `[`, the loop over the elements, whitespace and `]`; the pairs
      go onto the end of the caller's vector. */
  method Array(slice: string, pairs: seq<Pair>) returns (r: Result<string>, items: seq<Pair>)
    ensures r == AfterArray(ParseArray(slice))
    ensures r.Ok? ==> items == pairs + ParseArray(slice).value.1
    ensures |pairs| <= |items| && items[..|pairs|] == pairs
  {
    ParseArraySteps(slice);
    items := pairs;
    var afterBracket := Consume(slice, "[");
    if !afterBracket.Ok? {
      return afterBracket, items;
    }
    var afterItems;
    afterItems, items := ArrayElements(afterBracket.value, pairs);
    if !afterItems.Ok? {
      return afterItems, items;
    }
    r := Consume(Whitespace(afterItems.value), "]");
  }

  // ---------------------------------------------------------------------------
  // The document

  /** The text before the array: `{`, the key "pairs" and a colon, with
      whitespace before, between and after them. */
  function Header(json: string): (r: Result<string>)
    ensures r.Ok? ==> SuffixOf(r.value, json)
  {
    match Consume(Whitespace(json), "{")
    case Ok(afterBrace) =>
      (match Consume(Whitespace(afterBrace), "\"pairs\"")
       case Ok(afterKey) =>
         (match Consume(Whitespace(afterKey), ":")
          case Ok(afterColon) =>
            SuffixTransitive(afterColon, Whitespace(afterKey), afterKey);
            SuffixTransitive(afterColon, afterKey, Whitespace(afterBrace));
            SuffixTransitive(afterColon, Whitespace(afterBrace), afterBrace);
            SuffixTransitive(afterColon, afterBrace, Whitespace(json));
            SuffixTransitive(afterColon, Whitespace(json), json);
            SuffixTransitive(Whitespace(afterColon), afterColon, json);
            Ok(Whitespace(afterColon))
          case Err(m) => Err(m)
          case Panic => Panic)
       case Err(m) => Err(m)
       case Panic => Panic)
    case Err(m) => Err(m)
    case Panic => Panic
  }

  /** The header when each of its steps succeeds. */
  lemma HeaderOk(json: string, afterBrace: string, afterKey: string, afterColon: string)
    requires Consume(Whitespace(json), "{") == Ok(afterBrace)
    requires Consume(Whitespace(afterBrace), "\"pairs\"") == Ok(afterKey)
    requires Consume(Whitespace(afterKey), ":") == Ok(afterColon)
    ensures Header(json) == Ok(Whitespace(afterColon))
  {
  }

  /** `parse_haversine_pairs`: the header, the array, and the closing `}`
      after optional whitespace; whatever follows that brace is not read. */
  function Document(json: string): Result<seq<Pair>>
  {
    match Header(json)
    case Ok(beforeArray) =>
      (match ParseArray(beforeArray)
       case Ok((afterArray, pairs)) =>
         (match Consume(Whitespace(afterArray), "}")
          case Ok(_) => Ok(pairs)
          case Err(m) => Err(m)
          case Panic => Panic)
       case Err(m) => Err(m)
       case Panic => Panic)
    case Err(m) => Err(m)
    case Panic => Panic
  }

  /** A document whose header fails fails with it. */
  lemma DocumentHeaderFails(json: string)
    requires !Header(json).Ok?
    ensures Document(json) == Header(json).PropagateFailure()
  {
  }

  /** A document whose array fails fails with it. */
  lemma DocumentArrayFails(json: string, beforeArray: string)
    requires Header(json) == Ok(beforeArray)
    requires !ParseArray(beforeArray).Ok?
    ensures Document(json) == ParseArray(beforeArray).PropagateFailure()
  {
  }

  /** After the array, the closing brace decides. */
  lemma DocumentClose(json: string, beforeArray: string, afterArray: string, pairs: seq<Pair>)
    requires Header(json) == Ok(beforeArray)
    requires ParseArray(beforeArray) == Ok((afterArray, pairs))
    ensures Document(json) ==
      if Consume(Whitespace(afterArray), "}").Ok? then Ok(pairs)
      else Consume(Whitespace(afterArray), "}").PropagateFailure()
  {
  }

  /** A document that is read holds at least one pair. */
  lemma DocumentHasPairs(json: string)
    ensures Document(json).Ok? ==> |Document(json).value| >= 1
  {
    var header := Header(json);
    if header.Ok? {
      var parsed := ParseArray(header.value);
      if parsed.Ok? {
        var pairs := parsed.value.1;
        assert |pairs| >= 1;
        DocumentClose(json, header.value, parsed.value.0, pairs);
        var close := Consume(Whitespace(parsed.value.0), "}");
        if close.Ok? {
          assert Document(json) == Ok(pairs);
        } else {
          assert !Document(json).Ok?;
        }
      } else {
        DocumentArrayFails(json, header.value);
        assert !Document(json).Ok?;
      }
    } else {
      DocumentHeaderFails(json);
      assert !Document(json).Ok?;
    }
  }

  /** `parse_haversine_pairs`: each step reassigns the unread text, `?`
      returns the first failure, and the array loop fills a vector that
      starts out empty. */
  method ParseHaversinePairs(json: string) returns (r: Result<seq<Pair>>)
    ensures r == Document(json)
  {
    var slice := Whitespace(json);
    var header := Consume(slice, "{");
    if header.Ok? {
      slice := Whitespace(header.value);
      header := Consume(slice, "\"pairs\"");
      if header.Ok? {
        slice := Whitespace(header.value);
        header := Consume(slice, ":");
        if header.Ok? {
          header := Ok(Whitespace(header.value));
        }
      }
    }
    assert header == Header(json);
    if !header.Ok? {
      DocumentHeaderFails(json);
      return header.PropagateFailure();
    }
    slice := header.value;
    var pairs: seq<Pair> := [];
    var afterArray;
    afterArray, pairs := Array(slice, pairs);
    if !afterArray.Ok? {
      DocumentArrayFails(json, slice);
      return afterArray.PropagateFailure();
    }
    DocumentClose(json, slice, afterArray.value, ParseArray(slice).value.1);
    slice := Whitespace(afterArray.value);
    var _ :- Consume(slice, "}");
    r := Ok(pairs);
  }
}
