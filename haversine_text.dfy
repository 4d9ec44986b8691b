/** The text of a haversine input file as the generator writes it:

      { "pairs": [
          { "x0": X0, "y0": Y0, "x1": X1, "y1": Y1},
          ...
          { "x0": X0, "y0": Y0, "x1": X1, "y1": Y1}
        ]
      }

    Each writer puts its text in front of the text that follows it, so a
    round trip through the parser can be stated for any continuation. */
module HaversineText {
  import opened HaversineJson

  /** A number whose lexeme the parser accepts. */
  predicate ValidNumber(n: Number)
  {
    IsFloatLexeme(n.lexeme)
  }

  predicate ValidPair(p: Pair)
  {
    ValidNumber(p.x0) && ValidNumber(p.y0) && ValidNumber(p.x1) && ValidNumber(p.y1)
  }

  function Coordinates(p: Pair): (ns: seq<Number>)
    ensures |ns| == 4
  {
    [p.x0, p.y0, p.x1, p.y1]
  }

  // ---------------------------------------------------------------------------
  // Writers

  /** `"key": number`, then `rest`. */
  function FieldThen(key: string, n: Number, rest: string): string
  {
    key + (":" + (" " + (NumberText(n) + rest)))
  }

  /** The keys with their numbers, separated by `, `, then `rest`. */
  function KeysThen(keys: seq<string>, ns: seq<Number>, rest: string): string
    requires |keys| == |ns| >= 1
    decreases |keys|
  {
    if |keys| == 1 then FieldThen(keys[0], ns[0], rest)
    else FieldThen(keys[0], ns[0], "," + (" " + KeysThen(keys[1..], ns[1..], rest)))
  }

  /** `{ "x0": X0, "y0": Y0, "x1": X1, "y1": Y1}`, then `rest`. */
  function PairThen(p: Pair, rest: string): string
  {
    "{" + (" " + KeysThen(PairKeys, Coordinates(p), "}" + rest))
  }

  /** One line per pair, each indented by four spaces, with a comma after
      every pair but the last, then `rest`. */
  function ItemsThen(pairs: seq<Pair>, rest: string): string
    requires |pairs| >= 1
    decreases |pairs|
  {
    if |pairs| == 1 then "\n    " + PairThen(pairs[0], rest)
    else "\n    " + PairThen(pairs[0], "," + ItemsThen(pairs[1..], rest))
  }

  /** The closing lines of the file, then `rest`. */
  function ClosingThen(rest: string): string
  {
    "\n  " + ("]" + ("\n" + ("}" + ("\n" + rest))))
  }

  /** The whole file, then `rest`. */
  function DocumentThen(pairs: seq<Pair>, rest: string): string
    requires |pairs| >= 1
  {
    "{" + (" " + ("\"pairs\"" + (":" + (" " + ("[" + ItemsThen(pairs, ClosingThen(rest)))))))
  }

  // ---------------------------------------------------------------------------
  // Reading back each token

  lemma HeadTail<T>(s: seq<T>)
    requires |s| >= 1
    ensures [s[0]] + s[1..] == s
    ensures |s| == 1 ==> [s[0]] == s
  {
  }

  /** `consume` of a text that starts with `content` leaves what follows it. */
  lemma ConsumeThen(content: string, rest: string)
    ensures Consume(content + rest, content) == Ok(rest)
  {
    assert (content + rest)[..|content|] == content;
    ConsumeCases(content + rest, content);
  }

  /** `consume` of a text that starts with another character fails. */
  lemma ConsumeOther(content: string, s: string)
    requires |content| >= 1 && |s| >= 1 && s[0] != content[0]
    ensures Consume(s, content).Err?
  {
    ConsumeCases(s, content);
  }

  /** `whitespace` stops at the first character that is not whitespace. */
  lemma WhitespaceThen(space: string, rest: string)
    requires forall k :: 0 <= k < |space| ==> IsWhitespace(space[k])
    requires |rest| >= 1 && !IsWhitespace(rest[0])
    ensures Whitespace(space + rest) == rest
  {
    var s := space + rest;
    assert s[|space|] == rest[0];
    FindCases(s, NotWhitespace);
    assert Find(s, NotWhitespace) == Some(|space|);
    assert s[|space|..] == rest;
  }

  /** A text that starts with something other than whitespace is left alone. */
  lemma WhitespaceNone(s: string)
    requires |s| >= 1 && !IsWhitespace(s[0])
    ensures Whitespace(s) == s
  {
    WhitespaceThen("", s);
    assert "" + s == s;
  }

  lemma NumberTextStart(n: Number, rest: string)
    requires ValidNumber(n)
    ensures |NumberText(n) + rest| >= 1
    ensures var c := (NumberText(n) + rest)[0]; !IsWhitespace(c) && c != '"' && c != '}'
  {
    assert |n.lexeme| >= 1;
    assert IsNumeric(n.lexeme[0]);
  }

  /** A token with whitespace before it reads back. */
  lemma TokenThen(space: string, token: string, rest: string)
    requires forall k :: 0 <= k < |space| ==> IsWhitespace(space[k])
    requires |token| >= 1 && !IsWhitespace(token[0])
    ensures Consume(Whitespace(space + (token + rest)), token) == Ok(rest)
  {
    WhitespaceThen(space, token + rest);
    ConsumeThen(token, rest);
  }

  /** The indent before the closing bracket of the array is skipped. */
  lemma ClosingWhitespace(rest: string)
    ensures Whitespace(ClosingThen(rest)) == "]" + ("\n" + ("}" + ("\n" + rest)))
  {
    WhitespaceThen("\n  ", "]" + ("\n" + ("}" + ("\n" + rest))));
  }

  /** The closing brace of the file reads back after its line break. */
  lemma EndThen(rest: string)
    ensures Consume(Whitespace("\n" + ("}" + rest)), "}") == Ok(rest)
  {
    TokenThen("\n", "}", rest);
  }

  /** A token with nothing before it reads back. */
  lemma Token(token: string, rest: string)
    requires |token| >= 1 && !IsWhitespace(token[0])
    ensures Consume(Whitespace(token + rest), token) == Ok(rest)
  {
    WhitespaceNone(token + rest);
    ConsumeThen(token, rest);
  }

  /** `number` reads back a number the writer wrote, and stops where the
      text after it begins. */
  lemma NumberThen(n: Number, rest: string)
    requires ValidNumber(n)
    requires |rest| >= 1 && !IsNumeric(rest[0])
    ensures ParseNumber(NumberText(n) + rest) == Ok((rest, n))
  {
    var s := n.lexeme + rest;
    assert |n.lexeme| >= 1 && IsNumeric(n.lexeme[0]);
    assert s[|n.lexeme|] == rest[0];
    FindCases(s, NotNumeric);
    assert Find(s, NotNumeric) == Some(|n.lexeme|);
    assert s[..|n.lexeme|] == n.lexeme && s[|n.lexeme|..] == rest;
    assert Lexeme(s, n.negative) == Ok((rest, n));
    if n.negative {
      assert NumberText(n) + rest == "-" + s;
      ConsumeThen("-", s);
    } else {
      assert NumberText(n) + rest == s;
      ConsumeOther("-", s);
    }
  }

  /** A field reads back as its number. */
  lemma FieldThenParses(key: string, n: Number, rest: string)
    requires ValidNumber(n)
    requires |rest| >= 1 && !IsNumeric(rest[0])
    ensures ParseField(FieldThen(key, n, rest), key) == Ok((rest, n))
  {
    var afterColon := " " + (NumberText(n) + rest);
    ConsumeThen(key, ":" + afterColon);
    WhitespaceNone(":" + afterColon);
    ConsumeThen(":", afterColon);
    NumberTextStart(n, rest);
    WhitespaceThen(" ", NumberText(n) + rest);
    NumberThen(n, rest);
  }

  /** The comma between two fields reads back. */
  lemma CommaThen(rest: string)
    requires |rest| >= 1 && !IsWhitespace(rest[0])
    ensures ParseComma("," + (" " + rest)) == Ok(rest)
  {
    WhitespaceNone("," + (" " + rest));
    ConsumeThen(",", " " + rest);
    WhitespaceThen(" ", rest);
  }

  /** The last key reads back as its number. */
  lemma LastKeyThenParses(keys: seq<string>, ns: seq<Number>, rest: string)
    requires |keys| == |ns| == 1 && ValidNumber(ns[0])
    requires |rest| >= 1 && !IsNumeric(rest[0])
    ensures ParseKeys(KeysThen(keys, ns, rest), keys) == Ok((rest, ns))
  {
    FieldThenParses(keys[0], ns[0], rest);
    HeadTail(ns);
  }

  /** A key, its number and a comma, then the keys after it. */
  lemma NextKeyThenParses(keys: seq<string>, ns: seq<Number>, rest: string)
    requires |keys| == |ns| >= 2 && ValidNumber(ns[0])
    requires |keys[1]| >= 1 && !IsWhitespace(keys[1][0])
    requires ParseKeys(KeysThen(keys[1..], ns[1..], rest), keys[1..]) == Ok((rest, ns[1..]))
    ensures ParseKeys(KeysThen(keys, ns, rest), keys) == Ok((rest, ns))
  {
    var more := KeysThen(keys[1..], ns[1..], rest);
    KeysThenStart(keys[1..], ns[1..], rest);
    FieldThenParses(keys[0], ns[0], "," + (" " + more));
    CommaThen(more);
    ParseKeysNext(KeysThen(keys, ns, rest), keys, "," + (" " + more), ns[0], more, rest, ns[1..]);
    HeadTail(ns);
  }

  /** The keys, written in order, read back as their numbers. */
  lemma {:induction false} KeysThenParses(keys: seq<string>, ns: seq<Number>, rest: string)
    requires |keys| == |ns| >= 1
    requires forall k :: 0 <= k < |ns| ==> ValidNumber(ns[k])
    requires forall k :: 0 <= k < |keys| ==> |keys[k]| >= 1 && !IsWhitespace(keys[k][0])
    requires |rest| >= 1 && !IsNumeric(rest[0])
    ensures ParseKeys(KeysThen(keys, ns, rest), keys) == Ok((rest, ns))
    decreases |keys|
  {
    if |keys| == 1 {
      LastKeyThenParses(keys, ns, rest);
    } else {
      KeysThenParses(keys[1..], ns[1..], rest);
      NextKeyThenParses(keys, ns, rest);
    }
  }

  /** The first character a field writes is the first of its key. */
  lemma KeysThenStart(keys: seq<string>, ns: seq<Number>, rest: string)
    requires |keys| == |ns| >= 1 && |keys[0]| >= 1
    ensures |KeysThen(keys, ns, rest)| >= 1 && KeysThen(keys, ns, rest)[0] == keys[0][0]
  {
  }

  /** `pair` reads back a pair the writer wrote. */
  lemma PairThenParses(p: Pair, rest: string)
    requires ValidPair(p)
    ensures ParsePair(PairThen(p, rest)) == Ok((rest, p))
  {
    var ns := Coordinates(p);
    var fields := KeysThen(PairKeys, ns, "}" + rest);
    ConsumeThen("{", " " + fields);
    KeysThenStart(PairKeys, ns, "}" + rest);
    WhitespaceThen(" ", fields);
    KeysThenParses(PairKeys, ns, "}" + rest);
    WhitespaceNone("}" + rest);
    ConsumeThen("}", rest);
    ParsePairOk(PairThen(p, rest), " " + fields, "}" + rest, rest, ns);
  }

  /** A line of the array: its indentation, then the pair. */
  lemma ItemThenParses(p: Pair, after: string)
    requires ValidPair(p)
    ensures ParsePair(Whitespace("\n    " + PairThen(p, after))) == Ok((after, p))
  {
    WhitespaceThen("\n    ", PairThen(p, after));
    PairThenParses(p, after);
  }

  /** A line followed by a comma is a turn of the loop that goes on. */
  lemma ItemTurnMore(p: Pair, more: string)
    requires ValidPair(p)
    ensures ElementTurn("\n    " + PairThen(p, "," + more)) == Ok((more, p, true))
  {
    ItemThenParses(p, "," + more);
    TurnMore("\n    " + PairThen(p, "," + more), p, more);
  }

  /** A pair with a comma right after it is a turn of the loop that goes
      on. */
  lemma TurnMore(line: string, p: Pair, more: string)
    requires ParsePair(Whitespace(line)) == Ok(("," + more, p))
    ensures ElementTurn(line) == Ok((more, p, true))
  {
    Token(",", more);
    ElementTurnMore(line, "," + more, p, more);
  }

  /** A line followed by no comma is the last turn of the loop. */
  lemma ItemTurnLast(p: Pair, rest: string)
    requires ValidPair(p)
    requires |Whitespace(rest)| >= 1 && Whitespace(rest)[0] != ','
    ensures ElementTurn("\n    " + PairThen(p, rest)) == Ok((Whitespace(rest), p, false))
  {
    ItemThenParses(p, rest);
    ConsumeOther(",", Whitespace(rest));
    ElementTurnLast("\n    " + PairThen(p, rest), rest, p);
  }

  /** The last line of the array ends the loop. */
  lemma LastItemThenParses(pairs: seq<Pair>, rest: string)
    requires |pairs| == 1 && ValidPair(pairs[0])
    requires |Whitespace(rest)| >= 1 && Whitespace(rest)[0] != ','
    ensures Elements(ItemsThen(pairs, rest)) == Ok((Whitespace(rest), pairs))
  {
    ItemTurnLast(pairs[0], rest);
    ElementsLast(ItemsThen(pairs, rest), Whitespace(rest), pairs[0]);
    HeadTail(pairs);
  }

  /** A line with a comma after it: the loop goes on after the comma. */
  lemma NextItemThenParses(pairs: seq<Pair>, rest: string)
    requires |pairs| >= 2 && ValidPair(pairs[0])
    requires Elements(ItemsThen(pairs[1..], rest)) == Ok((Whitespace(rest), pairs[1..]))
    ensures Elements(ItemsThen(pairs, rest)) == Ok((Whitespace(rest), pairs))
  {
    var more := ItemsThen(pairs[1..], rest);
    ItemTurnMore(pairs[0], more);
    ElementsMore(ItemsThen(pairs, rest), more, pairs[0]);
    HeadTail(pairs);
  }

  /** Every line of the array reads back, and the loop stops at the first
      text after the last pair that is not a comma. */
  lemma {:induction false} ItemsThenParses(pairs: seq<Pair>, rest: string)
    requires |pairs| >= 1
    requires forall k :: 0 <= k < |pairs| ==> ValidPair(pairs[k])
    requires |Whitespace(rest)| >= 1 && Whitespace(rest)[0] != ','
    ensures Elements(ItemsThen(pairs, rest)) == Ok((Whitespace(rest), pairs))
    decreases |pairs|
  {
    if |pairs| == 1 {
      LastItemThenParses(pairs, rest);
    } else {
      ItemsThenParses(pairs[1..], rest);
      NextItemThenParses(pairs, rest);
    }
  }

  /** The header the writer puts before the array reads back, whatever
      the array holds. */
  lemma HeaderThenParses(items: string)
    ensures Header("{" + (" " + ("\"pairs\"" + (":" + (" " + ("[" + items)))))) == Ok("[" + items)
  {
    var afterColon := " " + ("[" + items);
    var afterKey := ":" + afterColon;
    var afterBrace := " " + ("\"pairs\"" + afterKey);
    Token("{", afterBrace);
    TokenThen(" ", "\"pairs\"", afterKey);
    Token(":", afterColon);
    WhitespaceThen(" ", "[" + items);
    HeaderOk("{" + afterBrace, afterBrace, afterKey, afterColon);
  }

  /** An array whose elements read back, closed the way the writer closes
      it, reads back. */
  lemma ArrayThenParses(items: string, pairs: seq<Pair>, after: string)
    requires Elements(items) == Ok(("]" + after, pairs))
    ensures ParseArray("[" + items) == Ok((after, pairs))
  {
    ConsumeThen("[", items);
    Token("]", after);
    ParseArrayOk("[" + items, items, "]" + after, pairs, after);
  }

  /** The parser reads back every file the writer writes, whatever follows
      it: the pairs come back in order, one per line. */
  lemma DocumentRoundTrip(pairs: seq<Pair>, rest: string)
    requires |pairs| >= 1
    requires forall k :: 0 <= k < |pairs| ==> ValidPair(pairs[k])
    ensures Document(DocumentThen(pairs, rest)) == Ok(pairs)
  {
    var json := DocumentThen(pairs, rest);
    var items := ItemsThen(pairs, ClosingThen(rest));
    var after := "\n" + ("}" + ("\n" + rest));
    HeaderThenParses(items);
    ClosingWhitespace(rest);
    ItemsThenParses(pairs, ClosingThen(rest));
    ArrayThenParses(items, pairs, after);
    EndThen("\n" + rest);
    DocumentClose(json, "[" + items, after, pairs);
  }
}
