/** The recursive-descent s-expression parser of src/parser.rs. */
module Parser {
  import opened Results
  import opened Tokenizer

  datatype Expr = Number(n: Int64) | Symbol(name: string) | List(items: seq<Expr>)

  /** The four `panic!`s of the parser. */
  datatype ParseError = UnexpectedEnd | UnexpectedClose | MissingClose | TrailingTokens
  {
    function Message(): string
    {
      match this
      case UnexpectedEnd => "Unexpected end of input"
      case UnexpectedClose => "Unexpected `)`"
      case MissingClose => "Missing closing parenthesis"
      case TrailingTokens => "Unexpected tokens after parsing:You passed many values"
    }
  }

  /** `rest` is what remains of `ts` after a prefix of it was consumed. */
  predicate IsSuffix(rest: seq<Token>, ts: seq<Token>)
  {
    |rest| <= |ts| && rest == ts[|ts| - |rest|..]
  }

  /** A strictly shorter suffix: at least one token was consumed. */
  predicate IsProperSuffix(rest: seq<Token>, ts: seq<Token>)
  {
    |rest| < |ts| && rest == ts[|ts| - |rest|..]
  }

  // ---------------------------------------------------------------------------
  // What `parse_tokens` computes

  /** `parse_tokens(ts)`: one expression and the tokens after it. On success at
      least one token was consumed; a failure is `UnexpectedEnd` on no input,
      `UnexpectedClose` on a leading `)` and otherwise `MissingClose`. */
  function ParseExpr(ts: seq<Token>): (r: Result<(Expr, seq<Token>), ParseError>)
    ensures r.Success? ==> IsProperSuffix(r.value.1, ts)
    ensures r.Failure? ==>
      r.error == (if ts == [] then UnexpectedEnd else if ts[0] == CloseParen then UnexpectedClose else MissingClose)
    decreases |ts|, 0
  {
    if ts == [] then Failure(UnexpectedEnd)
    else
      match ts[0]
      case Number(n) => Success((Expr.Number(n), ts[1..]))
      case Symbol(s) => Success((Expr.Symbol(s), ts[1..]))
      case OpenParen => ParseItems(ts[1..], [])
      case CloseParen => Failure(UnexpectedClose)
  }

  /** The `while` loop of `parse_tokens` after an `(`: `acc` holds the items
      parsed so far. It ends at the matching `)` or fails with `MissingClose`. */
  function ParseItems(ts: seq<Token>, acc: seq<Expr>): (r: Result<(Expr, seq<Token>), ParseError>)
    ensures r.Success? ==> IsProperSuffix(r.value.1, ts) && r.value.0.List?
    ensures r.Failure? ==> r.error == MissingClose
    decreases |ts|, 1
  {
    if ts == [] then Failure(MissingClose)
    else if ts[0] == CloseParen then Success((List(acc), ts[1..]))
    else
      match ParseExpr(ts)
      case Failure(e) => Failure(e)
      case Success((e, rest)) => ParseItems(rest, acc + [e])
  }

  /** `parse_tokens`: the leaf cases, and for `(` a loop that parses one
      sub-expression per iteration by a recursive call until it meets `)`. */
  method ParseTokens(tokens: seq<Token>) returns (r: Result<(Expr, seq<Token>), ParseError>)
    ensures r == ParseExpr(tokens)
    ensures tokens == [] ==> r == Failure(UnexpectedEnd)
    ensures tokens != [] && tokens[0].Number? ==> r == Success((Expr.Number(tokens[0].n), tokens[1..]))
    ensures tokens != [] && tokens[0].Symbol? ==> r == Success((Expr.Symbol(tokens[0].name), tokens[1..]))
    ensures tokens != [] && tokens[0] == CloseParen ==> r == Failure(UnexpectedClose)
    ensures r.Success? ==> IsProperSuffix(r.value.1, tokens)
    decreases |tokens|
  {
    if tokens == [] {
      return Failure(UnexpectedEnd);
    }
    var first, rest := tokens[0], tokens[1..];
    match first {
      case Number(n) =>
        return Success((Expr.Number(n), rest));
      case Symbol(s) =>
        return Success((Expr.Symbol(s), rest));
      case OpenParen =>
        var exprs: seq<Expr> := [];
        var ts := rest;
        while ts != []
          invariant |ts| <= |rest|
          invariant ParseItems(ts, exprs) == ParseExpr(tokens)
          decreases |ts|
        {
          if ts[0] == CloseParen {
            return Success((List(exprs), ts[1..]));
          }
          var sub := ParseTokens(ts);
          if sub.Failure? {
            return Failure(sub.error);
          }
          exprs := exprs + [sub.value.0];
          ts := sub.value.1;
        }
        return Failure(MissingClose);
      case CloseParen =>
        return Failure(UnexpectedClose);
    }
  }

  /** `parse`: one expression that must use up every token. */
  method Parse(tokens: seq<Token>) returns (r: Result<Expr, ParseError>)
    ensures ParseExpr(tokens).Failure? ==> r == Failure(ParseExpr(tokens).error)
    ensures ParseExpr(tokens).Success? && ParseExpr(tokens).value.1 == [] ==> r == Success(ParseExpr(tokens).value.0)
    ensures ParseExpr(tokens).Success? && ParseExpr(tokens).value.1 != [] ==> r == Failure(TrailingTokens)
  {
    var result := ParseTokens(tokens);
    if result.Failure? {
      return Failure(result.error);
    }
    var (expr, rest) := result.value;
    if rest != [] {
      return Failure(TrailingTokens);
    }
    return Success(expr);
  }

  // ---------------------------------------------------------------------------
  // Writing an expression back as tokens

  /** The tokens an expression is read from: a list is `(`, its items, `)`. */
  function Flatten(e: Expr): seq<Token>
    decreases e
  {
    match e
    case Number(n) => [Token.Number(n)]
    case Symbol(s) => [Token.Symbol(s)]
    case List(items) => [OpenParen] + FlattenAll(items) + [CloseParen]
  }

  function FlattenAll(es: seq<Expr>): seq<Token>
    decreases es
  {
    if es == [] then [] else Flatten(es[0]) + FlattenAll(es[1..])
  }

  // ---------------------------------------------------------------------------
  // Properties

  /** Parsing the tokens of `e` followed by anything gives back `e` and leaves
      exactly what followed. */
  lemma {:induction false} ParseFlatten(e: Expr, rest: seq<Token>)
    ensures ParseExpr(Flatten(e) + rest) == Success((e, rest))
    decreases e
  {
    match e {
      case Number(n) =>
        assert (Flatten(e) + rest)[1..] == rest;
      case Symbol(s) =>
        assert (Flatten(e) + rest)[1..] == rest;
      case List(items) =>
        var ts := Flatten(e) + rest;
        assert ts[1..] == FlattenAll(items) + [CloseParen] + rest;
        ParseFlattenItems(items, [], rest);
        assert [] + items == items;
    }
  }

  lemma {:induction false} ParseFlattenItems(items: seq<Expr>, acc: seq<Expr>, rest: seq<Token>)
    ensures ParseItems(FlattenAll(items) + [CloseParen] + rest, acc) == Success((List(acc + items), rest))
    decreases items
  {
    var ts := FlattenAll(items) + [CloseParen] + rest;
    if items == [] {
      assert ts == [CloseParen] + rest;
      assert ts[1..] == rest;
      assert acc + items == acc;
    } else {
      var tail := FlattenAll(items[1..]) + [CloseParen] + rest;
      assert ts == Flatten(items[0]) + tail by {
        FlattenCons(items[0], items[1..], rest);
        assert [items[0]] + items[1..] == items;
      }
      FlattenStart(items[0]);
      ParseFlatten(items[0], tail);
      ParseItemsStep(ts, acc, items[0], tail);
      ParseFlattenItems(items[1..], acc + [items[0]], rest);
      assert acc + [items[0]] + items[1..] == acc + items;
    }
  }

  /** One item of a list: `parse_tokens` reads it and the loop goes on after it. */
  lemma ParseItemsStep(ts: seq<Token>, acc: seq<Expr>, e: Expr, tail: seq<Token>)
    requires ts != [] && ts[0] != CloseParen
    requires ParseExpr(ts) == Success((e, tail))
    ensures ParseItems(ts, acc) == ParseItems(tail, acc + [e])
  {
  }

  /** No token sequence of an expression starts with `)`. */
  lemma FlattenStart(e: Expr)
    ensures Flatten(e) != [] && Flatten(e)[0] != CloseParen
  {
  }

  /** Conversely, whatever `parse_tokens` accepts is the token sequence of the
      expression it returns, followed by the rest. */
  lemma {:induction false} ParseExprSound(ts: seq<Token>)
    ensures ParseExpr(ts).Success? ==> ts == Flatten(ParseExpr(ts).value.0) + ParseExpr(ts).value.1
    decreases |ts|, 0
  {
    if ts != [] {
      match ts[0] {
        case Number(n) =>
        case Symbol(s) =>
        case OpenParen =>
          ParseItemsSound(ts[1..], []);
          if ParseExpr(ts).Success? {
            var result := ParseExpr(ts).value;
            assert result.0.items[0..] == result.0.items;
            assert ts == [OpenParen] + ts[1..];
          }
        case CloseParen =>
      }
    }
  }

  lemma {:induction false} ParseItemsSound(ts: seq<Token>, acc: seq<Expr>)
    ensures ParseItems(ts, acc).Success? ==> ItemsConsumed(ts, acc, ParseItems(ts, acc).value)
    decreases |ts|, 1
  {
    if ts != [] && ts[0] != CloseParen && ParseItems(ts, acc).Success? {
      var (e1, r1) := ParseExpr(ts).value;
      var acc' := acc + [e1];
      assert ParseItems(ts, acc) == ParseItems(r1, acc');
      var result := ParseItems(r1, acc').value;
      assert ts == Flatten(e1) + r1 by { ParseExprSound(ts); }
      assert ItemsConsumed(r1, acc', result) by { ParseItemsSound(r1, acc'); }
      ItemsConsumedStep(ts, acc, e1, r1, result);
    } else if ts != [] && ts[0] == CloseParen {
      var result := ParseItems(ts, acc).value;
      assert result.0.items[|acc|..] == [];
      assert ts == [CloseParen] + ts[1..];
    }
  }

  lemma ItemsConsumedStep(ts: seq<Token>, acc: seq<Expr>, e1: Expr, r1: seq<Token>, result: (Expr, seq<Token>))
    requires ts == Flatten(e1) + r1
    requires ItemsConsumed(r1, acc + [e1], result)
    ensures ItemsConsumed(ts, acc, result)
  {
    var items, n, tail := result.0.items, |acc|, result.1;
    assert items[..n] == acc by {
      assert items[..n] == (acc + [e1])[..n];
    }
    assert items[n..] == [e1] + items[n + 1..] by {
      assert items[n] == (acc + [e1])[n];
    }
    calc {
      ts;
      Flatten(e1) + r1;
      Flatten(e1) + (FlattenAll(items[n + 1..]) + [CloseParen] + tail);
      { FlattenCons(e1, items[n + 1..], tail); }
      FlattenAll([e1] + items[n + 1..]) + [CloseParen] + tail;
      FlattenAll(items[n..]) + [CloseParen] + tail;
    }
  }

  /** The tokens `ts` of the rest of a list whose first items `acc` were
      parsed before: `result` is the whole list and what follows it. */
  ghost predicate ItemsConsumed(ts: seq<Token>, acc: seq<Expr>, result: (Expr, seq<Token>))
  {
    && result.0.List?
    && |acc| <= |result.0.items|
    && result.0.items[..|acc|] == acc
    && ts == FlattenAll(result.0.items[|acc|..]) + [CloseParen] + result.1
  }

  lemma FlattenCons(e: Expr, more: seq<Expr>, tail: seq<Token>)
    ensures FlattenAll([e] + more) + [CloseParen] + tail == Flatten(e) + (FlattenAll(more) + [CloseParen] + tail)
  {
    assert ([e] + more)[0] == e && ([e] + more)[1..] == more;
  }

  /** `parse_tokens` succeeds with `(e, rest)` exactly when the tokens are those
      of `e` followed by `rest`. */
  lemma ParseExprIff(ts: seq<Token>, e: Expr, rest: seq<Token>)
    ensures ParseExpr(ts) == Success((e, rest)) <==> ts == Flatten(e) + rest
  {
    ParseExprSound(ts);
    if ts == Flatten(e) + rest {
      ParseFlatten(e, rest);
    }
  }

  /** An `(` with no `)` anywhere after it fails with `MissingClose`. */
  lemma NoCloseIsMissingClose(ts: seq<Token>)
    requires ts != [] && ts[0] == OpenParen
    requires forall k :: 0 <= k < |ts| ==> ts[k] != CloseParen
    ensures ParseExpr(ts) == Failure(MissingClose)
  {
    ListHasClose(ts);
  }

  /** A list that parses contains its closing parenthesis. */
  lemma ListHasClose(ts: seq<Token>)
    requires ts != [] && ts[0] == OpenParen
    ensures ParseExpr(ts).Success? ==> exists k :: 0 <= k < |ts| && ts[k] == CloseParen
  {
    ParseExprSound(ts);
    if ParseExpr(ts).Success? {
      var (e, rest) := ParseExpr(ts).value;
      if e.List? {
        var k := |FlattenAll(e.items)| + 1;
        assert ts[k] == Flatten(e)[k] == CloseParen;
      }
    }
  }

  /** A list whose closing parenthesis was cut off fails with `MissingClose`,
      even though each of its items parses. */
  lemma TruncatedListIsMissingClose(items: seq<Expr>)
    ensures ParseExpr([OpenParen] + FlattenAll(items)) == Failure(MissingClose)
  {
    TruncatedItems(items, []);
    assert ([OpenParen] + FlattenAll(items))[1..] == FlattenAll(items);
  }

  lemma {:induction false} TruncatedItems(items: seq<Expr>, acc: seq<Expr>)
    ensures ParseItems(FlattenAll(items), acc) == Failure(MissingClose)
    decreases items
  {
    if items != [] {
      var tail := FlattenAll(items[1..]);
      FlattenStart(items[0]);
      ParseFlatten(items[0], tail);
      TruncatedItems(items[1..], acc + [items[0]]);
    }
  }

  /** The example of src/parser.rs: `(define x 10)`, and the same with one `)`
      too many. */
  method DefineExample() returns (ok: Result<Expr, ParseError>, extra: Result<Expr, ParseError>)
    ensures ok == Success(List([Expr.Symbol("define"), Expr.Symbol("x"), Expr.Number(10)]))
    ensures extra == Failure(TrailingTokens)
  {
    var e := List([Expr.Symbol("define"), Expr.Symbol("x"), Expr.Number(10)]);
    var tokens := [OpenParen, Token.Symbol("define"), Token.Symbol("x"), Token.Number(10), CloseParen];
    assert tokens == Flatten(e) + [] by {
      assert FlattenAll(e.items[2..]) == [Token.Number(10)];
      assert FlattenAll(e.items[1..]) == [Token.Symbol("x"), Token.Number(10)];
    }
    ParseFlatten(e, []);
    ok := Parse(tokens);
    ParseFlatten(e, [CloseParen]);
    assert tokens + [CloseParen] == Flatten(e) + [CloseParen];
    extra := Parse(tokens + [CloseParen]);
  }
}
