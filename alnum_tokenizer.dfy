/** The alternative tokenizer of src/tokenizer/tokenizer.rs: every maximal run
    of alphanumeric characters becomes one `Identifier` token; every other
    character only ends the current run. */
module AlnumTokenizer {
  import opened Chars

  datatype TokenKind = Identifier | Number | Operator | Keyword

  datatype Token = Token(kind: TokenKind, value: string)

  predicate AllAlphanumeric(s: string)
  {
    forall i :: 0 <= i < |s| ==> IsAlphanumeric(s[i])
  }

  /** A token as the scanner emits it. */
  predicate WellFormed(t: Token)
  {
    t.kind == Identifier && t.value != [] && AllAlphanumeric(t.value)
  }

  /** Emitting the buffer: a token if it is not empty. */
  function Flush(buffer: string): seq<Token>
  {
    if buffer == [] then [] else [Token(Identifier, buffer)]
  }

  /** The tokens emitted while scanning `s` with `buffer` holding the run read
      so far. */
  function Scan(s: string, buffer: string): seq<Token>
    decreases |s|
  {
    if s == [] then Flush(buffer)
    else if IsAlphanumeric(s[0]) then Scan(s[1..], buffer + [s[0]])
    else Flush(buffer) + Scan(s[1..], [])
  }

  /** The characters of `s` that are alphanumeric, in order. */
  function Filter(s: string): string
  {
    if s == [] then []
    else if IsAlphanumeric(s[0]) then [s[0]] + Filter(s[1..])
    else Filter(s[1..])
  }

  /** The values of the tokens, one after the other. */
  function Concat(ts: seq<Token>): string
  {
    if ts == [] then [] else ts[0].value + Concat(ts[1..])
  }

  /** The number of maximal alphanumeric runs in `s`: the positions where a run
      starts. */
  function RunCount(s: string): nat
    decreases |s|
  {
    if s == [] then 0
    else
      var n := |s| - 1;
      RunCount(s[..n]) + (if IsAlphanumeric(s[n]) && (n == 0 || !IsAlphanumeric(s[n - 1])) then 1 else 0)
  }

  /** `tokenize`: a character loop that extends `current` with each
      alphanumeric character, and at any other character pushes `current` (if
      non-empty) and clears it; after the loop a pending run is pushed too. */
  method Tokenize(input: string) returns (tokens: seq<Token>)
    ensures tokens == Scan(input, [])
    ensures forall k :: 0 <= k < |tokens| ==> WellFormed(tokens[k])
    ensures Concat(tokens) == Filter(input)
    ensures |tokens| == RunCount(input)
  {
    tokens := [];
    var current: string := [];
    for i := 0 to |input|
      invariant tokens + Scan(input[i..], current) == Scan(input, [])
      invariant AllAlphanumeric(current)
      invariant |current| <= i && current == input[i - |current|..i]
    {
      var ch := input[i];
      assert input[i..][1..] == input[i + 1..];
      if IsAlphanumeric(ch) {
        assert input[i - |current|..i + 1] == current + [ch];
        current := current + [ch];
      } else {
        ScanSeparator(tokens, input[i..], current);
        if current != [] {
          tokens := tokens + [Token(Identifier, current)];
          current := [];
        }
      }
    }
    if current != [] {
      tokens := tokens + [Token(Identifier, current)];
    }
    ScanProperties(input);
  }

  /** A separator flushes the buffer and restarts it. */
  lemma ScanSeparator(tokens: seq<Token>, s: string, buffer: string)
    requires s != [] && !IsAlphanumeric(s[0])
    ensures tokens + Scan(s, buffer) == (tokens + Flush(buffer)) + Scan(s[1..], [])
  {
  }

  /** What `tokenize` promises about its output, stated on `Scan`. */
  lemma ScanProperties(input: string)
    ensures forall k :: 0 <= k < |Scan(input, [])| ==> WellFormed(Scan(input, [])[k])
    ensures Concat(Scan(input, [])) == Filter(input)
    ensures |Scan(input, [])| == RunCount(input)
  {
    ScanWellFormed(input, []);
    ScanConcat(input, []);
    ScanCount([], input, []);
    assert [] + input == input;
  }

  // ---------------------------------------------------------------------------
  // Properties

  /** Every token is a non-empty `Identifier` of alphanumeric characters. */
  lemma {:induction false} ScanWellFormed(s: string, buffer: string)
    requires AllAlphanumeric(buffer)
    ensures forall k :: 0 <= k < |Scan(s, buffer)| ==> WellFormed(Scan(s, buffer)[k])
    decreases |s|
  {
    if s != [] {
      if IsAlphanumeric(s[0]) {
        ScanWellFormed(s[1..], buffer + [s[0]]);
      } else {
        ScanWellFormed(s[1..], []);
      }
    }
  }

  lemma {:induction false} ConcatAppend(a: seq<Token>, b: seq<Token>)
    ensures Concat(a + b) == Concat(a) + Concat(b)
    decreases |a|
  {
    if a == [] {
      assert a + b == b;
    } else {
      assert (a + b)[1..] == a[1..] + b;
      ConcatAppend(a[1..], b);
    }
  }

  /** The token values, put together, are the input without its
      non-alphanumeric characters. */
  lemma {:induction false} ScanConcat(s: string, buffer: string)
    ensures Concat(Scan(s, buffer)) == buffer + Filter(s)
    decreases |s|
  {
    if s == [] {
      assert buffer + [] == buffer;
    } else if IsAlphanumeric(s[0]) {
      ScanConcat(s[1..], buffer + [s[0]]);
      assert buffer + [s[0]] + Filter(s[1..]) == buffer + ([s[0]] + Filter(s[1..]));
    } else {
      ScanConcat(s[1..], []);
      ConcatAppend(Flush(buffer), Scan(s[1..], []));
      assert [] + Filter(s[1..]) == Filter(s[1..]);
      assert Concat(Flush(buffer)) == buffer by {
        if buffer != [] { assert Flush(buffer)[1..] == []; }
      }
    }
  }

  /** One token per maximal run. `seen` is the input already scanned; the
      buffer is non-empty exactly when `seen` ends inside a run. */
  lemma {:induction false} ScanCount(seen: string, s: string, buffer: string)
    requires buffer != [] <==> (seen != [] && IsAlphanumeric(seen[|seen| - 1]))
    ensures |Scan(s, buffer)| + RunCount(seen) == RunCount(seen + s) + (if buffer != [] then 1 else 0)
    decreases |s|
  {
    if s == [] {
      assert seen + s == seen;
    } else {
      var seen' := seen + [s[0]];
      assert seen' + s[1..] == seen + s;
      assert seen'[..|seen'| - 1] == seen;
      if IsAlphanumeric(s[0]) {
        ScanCount(seen', s[1..], buffer + [s[0]]);
      } else {
        ScanCount(seen', s[1..], []);
      }
    }
  }

  /** An input without alphanumeric characters yields no tokens. */
  lemma {:induction false} NoAlphanumericNoTokens(s: string)
    requires forall i :: 0 <= i < |s| ==> !IsAlphanumeric(s[i])
    ensures Scan(s, []) == []
    decreases |s|
  {
    if s != [] {
      NoAlphanumericNoTokens(s[1..]);
    }
  }

  /** A separator ends the run before it: tokens of the two sides are
      independent. */
  lemma {:induction false} SeparatorSplits(a: string, sep: char, b: string, buffer: string)
    requires !IsAlphanumeric(sep)
    ensures Scan(a + [sep] + b, buffer) == Scan(a, buffer) + Scan(b, [])
    decreases |a|
  {
    if a == [] {
      assert a + [sep] + b == [sep] + b;
    } else {
      assert (a + [sep] + b)[1..] == a[1..] + [sep] + b;
      if IsAlphanumeric(a[0]) {
        SeparatorSplits(a[1..], sep, b, buffer + [a[0]]);
      } else {
        SeparatorSplits(a[1..], sep, b, []);
      }
    }
  }

  /** A run of alphanumeric characters continues the buffer into one token. */
  lemma {:induction false} ScanRun(w: string, buffer: string)
    requires AllAlphanumeric(w) && buffer + w != []
    ensures Scan(w, buffer) == [Token(Identifier, buffer + w)]
    decreases |w|
  {
    if w == [] {
      assert buffer + w == buffer;
    } else {
      assert buffer + [w[0]] + w[1..] == buffer + w;
      ScanRun(w[1..], buffer + [w[0]]);
    }
  }

  /** A run at the very end of the input, with no separator after it, is still
      emitted. */
  lemma TrailingRunEmitted(s: string, w: string)
    requires w != [] && AllAlphanumeric(w)
    requires s == [] || !IsAlphanumeric(s[|s| - 1])
    ensures Scan(s + w, []) == Scan(s, []) + [Token(Identifier, w)]
  {
    ScanRun(w, []);
    assert [] + w == w;
    if s == [] {
      assert s + w == w;
    } else {
      var init := s[..|s| - 1];
      var sep := s[|s| - 1];
      assert s + w == init + [sep] + w;
      assert s == init + [sep] + [];
      SeparatorSplits(init, sep, w, []);
      SeparatorSplits(init, sep, [], []);
    }
  }
}
