/** The whitespace tokenizer of src/Tokenizer.rs: the input is split into
    whitespace-separated words and every word becomes one token. */
module Tokenizer {
  import opened Results
  import opened Chars

  const I64_MIN: int := -0x8000_0000_0000_0000
  const I64_MAX: int := 0x7FFF_FFFF_FFFF_FFFF

  /** Rust's `i64`. */
  type Int64 = x: int | I64_MIN <= x <= I64_MAX

  datatype Token = Number(n: Int64) | Symbol(name: string) | OpenParen | CloseParen

  /** Why `word.parse::<i64>().unwrap()` panics on an all-numeric word: a numeric
      character that is not an ASCII digit, or a value beyond `i64::MAX`. */
  datatype LexError = InvalidDigit(word: string) | Overflow(word: string)

  // ---------------------------------------------------------------------------
  // `str::split_whitespace`

  /** A word as `split_whitespace` yields it: non-empty, without whitespace. */
  predicate IsWord(w: string)
  {
    w != [] && forall i :: 0 <= i < |w| ==> !IsWhitespace(w[i])
  }

  /** The pending word, if there is one. */
  function Emit(word: string): seq<string>
  {
    if word == [] then [] else [word]
  }

  /** The words of `s`, where `word` holds the characters of a word that began
      before `s`. */
  function Split(s: string, word: string): (ws: seq<string>)
    requires forall i :: 0 <= i < |word| ==> !IsWhitespace(word[i])
    ensures forall k :: 0 <= k < |ws| ==> IsWord(ws[k])
    decreases |s|
  {
    if s == [] then Emit(word)
    else if IsWhitespace(s[0]) then Emit(word) + Split(s[1..], [])
    else Split(s[1..], word + [s[0]])
  }

  /** `input.split_whitespace()`, in order. */
  function Words(s: string): (ws: seq<string>)
    ensures forall k :: 0 <= k < |ws| ==> IsWord(ws[k])
  {
    Split(s, [])
  }

  // ---------------------------------------------------------------------------
  // Classifying one word

  predicate AllNumeric(w: string)
  {
    forall i :: 0 <= i < |w| ==> IsNumeric(w[i])
  }

  predicate AllAsciiDigits(w: string)
  {
    forall i :: 0 <= i < |w| ==> IsAsciiDigit(w[i])
  }

  /** The decimal value of a string of ASCII digits, leading zeros allowed. */
  function DecimalValue(w: string): nat
    requires AllAsciiDigits(w)
    decreases |w|
  {
    if w == [] then 0
    else 10 * DecimalValue(w[..|w| - 1]) + (w[|w| - 1] as int - '0' as int)
  }

  /** `word.parse::<i64>()` on a non-empty word of numeric characters (the only
      words the tokenizer hands it). */
  function ParseInt64(w: string): (r: Result<Int64, LexError>)
    requires w != [] && AllNumeric(w)
    ensures r.Success? <==> AllAsciiDigits(w) && DecimalValue(w) <= I64_MAX
    ensures r.Success? ==> r.value == DecimalValue(w)
    ensures r == Failure(InvalidDigit(w)) <==> !AllAsciiDigits(w)
    ensures r == Failure(Overflow(w)) <==> AllAsciiDigits(w) && DecimalValue(w) > I64_MAX
  {
    if !AllAsciiDigits(w) then Failure(InvalidDigit(w))
    else if DecimalValue(w) > I64_MAX then Failure(Overflow(w))
    else Success(DecimalValue(w))
  }

  /** The `match word` of `tokenize`: the token for one word, or the panic of
      `parse().unwrap()`. */
  function Classify(w: string): (r: Result<Token, LexError>)
    requires w != []
    ensures r == Success(OpenParen) <==> w == "("
    ensures r == Success(CloseParen) <==> w == ")"
    ensures (r.Success? && r.value.Number?) <==> AllAsciiDigits(w) && DecimalValue(w) <= I64_MAX
    ensures r.Success? && r.value.Number? ==> r.value.n == DecimalValue(w) && r.value.n >= 0
    ensures (r.Success? && r.value.Symbol?) <==> !AllNumeric(w) && w != "(" && w != ")"
    ensures r.Success? && r.value.Symbol? ==> r.value.name == w
    ensures r.Failure? <==> AllNumeric(w) && !(AllAsciiDigits(w) && DecimalValue(w) <= I64_MAX)
    ensures r.Failure? ==> r.error.word == w
  {
    if w == "(" then Success(OpenParen)
    else if w == ")" then Success(CloseParen)
    else if AllNumeric(w) then
      match ParseInt64(w)
      case Success(n) => Success(Number(n))
      case Failure(e) => Failure(e)
    else Success(Symbol(w))
  }

  // ---------------------------------------------------------------------------
  // Tokenizing the whole input

  /** The tokens of a sequence of words: one per word, stopping at the first
      word that panics. */
  function LexWords(ws: seq<string>): Result<seq<Token>, LexError>
    requires forall k :: 0 <= k < |ws| ==> IsWord(ws[k])
    decreases |ws|
  {
    if ws == [] then Success([])
    else
      match LexWords(ws[..|ws| - 1])
      case Failure(e) => Failure(e)
      case Success(ts) =>
        assert IsWord(ws[|ws| - 1]);
        match Classify(ws[|ws| - 1])
        case Failure(e) => Failure(e)
        case Success(t) => Success(ts + [t])
  }

  /** What `tokenize(input)` returns, or the panic it raises. */
  function Lex(input: string): Result<seq<Token>, LexError>
  {
    LexWords(Words(input))
  }

  /** Tokens of two inputs one after the other; the first panic wins. */
  function Join(x: Result<seq<Token>, LexError>, y: Result<seq<Token>, LexError>): Result<seq<Token>, LexError>
  {
    match x
    case Failure(_) => x
    case Success(tx) =>
      match y
      case Failure(_) => y
      case Success(ty) => Success(tx + ty)
  }

  /** `tokenize`: a loop over the words that pushes one token per word. */
  method Tokenize(input: string) returns (r: Result<seq<Token>, LexError>)
    ensures r == Lex(input)
    ensures r.Success? <==> forall k :: 0 <= k < |Words(input)| ==> Classify(Words(input)[k]).Success?
    ensures r.Success? ==> |r.value| == |Words(input)|
    ensures r.Success? ==> forall k :: 0 <= k < |r.value| ==> Classify(Words(input)[k]) == Success(r.value[k])
  {
    var words := Words(input);
    var tokens: seq<Token> := [];
    for i := 0 to |words|
      invariant LexWords(words[..i]) == Success(tokens)
    {
      var word := words[i];
      assert words[..i + 1][..i] == words[..i];
      if word == "(" {
        tokens := tokens + [OpenParen];
      } else if word == ")" {
        tokens := tokens + [CloseParen];
      } else if AllNumeric(word) {
        var n := ParseInt64(word);
        if n.Failure? {
          // `unwrap()` panics: the rest of the input is never looked at
          LexWordsAppend(words[..i + 1], words[i + 1..]);
          assert words[..i + 1] + words[i + 1..] == words;
          r := Failure(n.error);
          LexWordsPerWord(words);
          return;
        }
        tokens := tokens + [Number(n.value)];
      } else {
        tokens := tokens + [Symbol(word)];
      }
    }
    assert words[..|words|] == words;
    r := Success(tokens);
    LexWordsPerWord(words);
  }

  // ---------------------------------------------------------------------------
  // Properties

  /** One token per word, in order; the tokenizer fails exactly when some word
      fails, and then with the error of the first such word. */
  lemma {:induction false} LexWordsPerWord(ws: seq<string>)
    requires forall k :: 0 <= k < |ws| ==> IsWord(ws[k])
    ensures LexWords(ws).Success? <==> forall k :: 0 <= k < |ws| ==> Classify(ws[k]).Success?
    ensures LexWords(ws).Success? ==> |LexWords(ws).value| == |ws|
    ensures LexWords(ws).Success? ==>
      forall k :: 0 <= k < |ws| ==> Classify(ws[k]) == Success(LexWords(ws).value[k])
    ensures LexWords(ws).Failure? ==>
      exists k :: 0 <= k < |ws| && Classify(ws[k]) == Failure(LexWords(ws).error)
                  && forall j :: 0 <= j < k ==> Classify(ws[j]).Success?
    decreases |ws|
  {
    if ws != [] {
      var init := ws[..|ws| - 1];
      LexWordsPerWord(init);
      assert forall k :: 0 <= k < |init| ==> init[k] == ws[k];
      if LexWords(init).Failure? {
        var k :| 0 <= k < |init| && Classify(init[k]) == Failure(LexWords(init).error)
                 && forall j :: 0 <= j < k ==> Classify(init[j]).Success?;
        assert Classify(ws[k]) == Failure(LexWords(ws).error);
      } else if Classify(ws[|ws| - 1]).Failure? {
        assert Classify(ws[|ws| - 1]) == Failure(LexWords(ws).error);
      }
    }
  }

  /** Every `Number` token is non-negative: a word holding `-` is not all-digit. */
  lemma NumbersNonNegative(input: string)
    ensures Lex(input).Success? ==>
      forall k :: 0 <= k < |Lex(input).value| && Lex(input).value[k].Number? ==> Lex(input).value[k].n >= 0
  {
    LexWordsPerWord(Words(input));
  }

  /** Leading zeros do not change the value of a digit word. */
  lemma {:induction false} LeadingZero(w: string)
    requires AllAsciiDigits(w)
    ensures AllAsciiDigits("0" + w) && DecimalValue("0" + w) == DecimalValue(w)
    decreases |w|
  {
    var z := "0" + w;
    assert AllAsciiDigits(z) by {
      assert forall i :: 1 <= i < |z| ==> z[i] == w[i - 1];
    }
    if w != [] {
      var init := w[..|w| - 1];
      LeadingZero(init);
      assert z[..|z| - 1] == "0" + init;
    }
  }

  lemma {:induction false} SplitAllWhitespace(s: string, word: string)
    requires forall i :: 0 <= i < |word| ==> !IsWhitespace(word[i])
    requires forall i :: 0 <= i < |s| ==> IsWhitespace(s[i])
    ensures Split(s, word) == Emit(word)
    decreases |s|
  {
    if s != [] {
      SplitAllWhitespace(s[1..], []);
    }
  }

  /** Input made only of whitespace (or empty) yields no tokens. */
  lemma WhitespaceOnly(s: string)
    requires forall i :: 0 <= i < |s| ==> IsWhitespace(s[i])
    ensures Lex(s) == Success([])
  {
    SplitAllWhitespace(s, []);
  }

  /** A whitespace character separates the words before it from those after it. */
  /** A stretch without whitespace stays one word, joined to the word it
      continues. */
  lemma {:induction false} SplitRun(w: string, word: string)
    requires forall i :: 0 <= i < |word| ==> !IsWhitespace(word[i])
    requires forall i :: 0 <= i < |w| ==> !IsWhitespace(w[i])
    requires word + w != []
    ensures Split(w, word) == [word + w]
    decreases |w|
  {
    if w == [] {
      assert word + w == word;
    } else {
      SplitRun(w[1..], word + [w[0]]);
      assert word + [w[0]] + w[1..] == word + w;
    }
  }

  /** A word on its own is the only word `split_whitespace` yields. */
  lemma WordsOfWord(w: string)
    requires IsWord(w)
    ensures Words(w) == [w]
  {
    SplitRun(w, []);
    assert [] + w == w;
  }

  lemma {:induction false} SplitAppend(a: string, sep: char, b: string, word: string)
    requires forall i :: 0 <= i < |word| ==> !IsWhitespace(word[i])
    requires IsWhitespace(sep)
    ensures Split(a + [sep] + b, word) == Split(a, word) + Split(b, [])
    decreases |a|
  {
    if a == [] {
      assert a + [sep] + b == [sep] + b;
    } else {
      assert (a + [sep] + b)[1..] == a[1..] + [sep] + b;
      if IsWhitespace(a[0]) {
        SplitAppend(a[1..], sep, b, []);
      } else {
        SplitAppend(a[1..], sep, b, word + [a[0]]);
      }
    }
  }

  lemma {:induction false} LexWordsAppend(u: seq<string>, v: seq<string>)
    requires forall k :: 0 <= k < |u| ==> IsWord(u[k])
    requires forall k :: 0 <= k < |v| ==> IsWord(v[k])
    ensures forall k :: 0 <= k < |u + v| ==> IsWord((u + v)[k])
    ensures LexWords(u + v) == Join(LexWords(u), LexWords(v))
    decreases |v|
  {
    assert forall k :: 0 <= k < |u + v| ==> IsWord((u + v)[k]) by {
      forall k | 0 <= k < |u + v| ensures IsWord((u + v)[k]) {
        if k >= |u| { assert (u + v)[k] == v[k - |u|]; }
      }
    }
    if v == [] {
      assert u + v == u;
      match LexWords(u) { case Success(t) => assert t + [] == t; case Failure(_) => }
    } else {
      var v' := v[..|v| - 1];
      assert (u + v)[..|u + v| - 1] == u + v';
      LexWordsAppend(u, v');
      match LexWords(u) {
        case Failure(_) =>
        case Success(tu) =>
          match LexWords(v') {
            case Failure(_) =>
            case Success(tv) =>
              match Classify(v[|v| - 1]) {
                case Failure(_) =>
                case Success(t) => assert tu + tv + [t] == tu + (tv + [t]);
              }
          }
      }
    }
  }

  /** `tokenize(a + " " + b)` is `tokenize(a)` followed by `tokenize(b)`. */
  lemma LexAppend(a: string, b: string)
    ensures Lex(a + " " + b) == Join(Lex(a), Lex(b))
  {
    assert a + " " + b == a + [' '] + b;
    SplitAppend(a, ' ', b, []);
    LexWordsAppend(Words(a), Words(b));
  }

  // ---------------------------------------------------------------------------
  // Examples

  /** The words `(` and `)` are parentheses only when written alone. */
  lemma ParenthesesStandAlone()
    ensures Classify("(") == Success(OpenParen) && Classify(")") == Success(CloseParen)
    ensures Classify("(define") == Success(Symbol("(define"))
    ensures Classify("10)") == Success(Symbol("10)"))
    ensures Classify("-5") == Success(Symbol("-5"))
  {
    assert !IsNumeric("10)"[2]);
    assert !IsNumeric("-5"[0]);
  }

  /** `"007"` is the number 7. */
  lemma LeadingZerosExample()
    ensures Classify("007") == Success(Number(7))
  {
    assert "007"[..2] == "00" && "00"[..1] == "0" && "0"[..0] == "";
  }

  /** Roman numerals are numeric, so a word of them panics in `parse`; the two
      letters among them, reversed C and reversed one hundred, are not, so
      such a word is a symbol. */
  lemma NumeralLettersAreSymbols()
    ensures Classify("\U{2160}") == Failure(InvalidDigit("\U{2160}"))
    ensures Classify("\U{2183}") == Success(Symbol("\U{2183}"))
    ensures Classify("\U{2184}") == Success(Symbol("\U{2184}"))
  {
    assert !IsNumeric("\U{2183}"[0]) && !IsNumeric("\U{2184}"[0]);
  }

  /** A worked example: the words of `( + 1 2 )` become five tokens. */
  lemma TokenizeExample(s: string)
    requires s == "( + 1 2 )"
    ensures Lex(s) == Success([OpenParen, Symbol("+"), Number(1), Number(2), CloseParen])
  {
    var a, b, c, d, e := s[0..1], s[2..3], s[4..5], s[6..7], s[8..9];
    assert s == a + " " + (b + " " + (c + " " + (d + " " + e)));
    LexSentence(a, b, c, d, e);
    assert [OpenParen] + ([Symbol("+")] + ([Number(1)] + ([Number(2)] + [CloseParen])))
        == [OpenParen, Symbol("+"), Number(1), Number(2), CloseParen];
  }

  /** The five one-character words of `( + 1 2 )`, one step of `LexAppend` each. */
  lemma LexSentence(a: string, b: string, c: string, d: string, e: string)
    requires a == "(" && b == "+" && c == "1" && d == "2" && e == ")"
    ensures Lex(a + " " + (b + " " + (c + " " + (d + " " + e))))
         == Success([OpenParen] + ([Symbol("+")] + ([Number(1)] + ([Number(2)] + [CloseParen]))))
  {
    var rd := d + " " + e;
    var rc := c + " " + rd;
    var rb := b + " " + rc;
    var te: seq<Token> := [CloseParen];
    var td: seq<Token> := [Number(2)] + te;
    var tc: seq<Token> := [Number(1)] + td;
    var tb: seq<Token> := [Symbol("+")] + tc;
    assert Lex(e) == Success(te) by { WordExample(e); }
    assert Lex(rd) == Success(td) by { DigitWord(d); WordStep(d, e, Number(2)); }
    assert Lex(rc) == Success(tc) by { DigitWord(c); WordStep(c, rd, Number(1)); }
    assert Lex(rb) == Success(tb) by { assert !IsNumeric(b[0]); WordStep(b, rc, Symbol("+")); }
    WordStep(a, rb, OpenParen);
  }

  lemma DigitWord(w: string)
    requires |w| == 1 && IsAsciiDigit(w[0])
    ensures Classify(w) == Success(Number(w[0] as int - '0' as int))
  {
    assert AllAsciiDigits(w) && AllNumeric(w);
    assert w[..0] == [];
    assert DecimalValue(w) == w[0] as int - '0' as int;
    assert w != "(" && w != ")";
  }

  lemma WordStep(w: string, rest: string, t: Token)
    requires |w| == 1 && !IsWhitespace(w[0]) && Classify(w) == Success(t)
    ensures Lex(w + " " + rest) == Join(Success([t]), Lex(rest))
  {
    WordExample(w);
    LexAppend(w, rest);
  }

  lemma WordExample(w: string)
    requires |w| == 1 && !IsWhitespace(w[0])
    ensures Words(w) == [w]
    ensures Lex(w) == match Classify(w) case Success(t) => Success([t]) case Failure(e) => Failure(e)
  {
    WordsOfWord(w);
    assert [w][..0] == [];
    assert LexWords([w][..0]) == Success([]);
    match Classify(w) {
      case Success(t) => assert [] + [t] == [t];
      case Failure(_) =>
    }
  }
}
