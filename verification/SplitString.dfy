/** Splitting a string at a delimiter, and joining it again. */
module SplitStrings {

  /** Where `delim` first occurs at or after `from`; the length of the string stands for npos. */
  method Find(full: string, delim: char, from: nat) returns (pos: nat)
    requires from <= |full|
    ensures from <= pos <= |full|
    ensures delim !in full[from..pos]
    ensures pos < |full| ==> full[pos] == delim
  {
    pos := from;
    while pos < |full| && full[pos] != delim
      invariant from <= pos <= |full|
      invariant delim !in full[from..pos]
    {
      pos := pos + 1;
    }
  }

  /** The tokens of a string, the empty string included: it holds one empty token. */
  function Tokens(full: string, delim: char): (tokens: seq<string>)
    ensures |tokens| >= 1
  {
    if full == [] then [""]
    else if full[0] == delim then [""] + Tokens(full[1..], delim)
    else
      var rest := Tokens(full[1..], delim);
      [[full[0]] + rest[0]] + rest[1..]
  }

  /** What the repository makes of the empty string is different: no token at all. */
  function Split(full: string, delim: char): seq<string> {
    if full == [] then [] else Tokens(full, delim)
  }

  method SplitString(full: string, delim: char) returns (result: seq<string>)
    ensures result == Split(full, delim)
  {
    result := [];
    if |full| == 0 {
      return;
    }
    var prev := 0;
    var pos := Find(full, delim, prev);
    assert full[0..] == full;
    while pos != |full|
      invariant prev <= pos <= |full|
      invariant delim !in full[prev..pos]
      invariant pos < |full| ==> full[pos] == delim
      invariant result + Tokens(full[prev..], delim) == Tokens(full, delim)
      decreases |full| - prev
    {
      PushToken(full, prev, pos, delim, result);
      result := result + [full[prev..pos]];
      prev := pos + 1;
      pos := Find(full, delim, prev);
    }
    var token := full[prev..|full|];
    assert token == full[prev..];
    TokensWithoutDelimiter(token, delim);
    result := result + [token];
  }

  /** What one `push_back` keeps: the tokens so far and those of the rest of the string. */
  lemma PushToken(full: string, prev: nat, pos: nat, delim: char, result: seq<string>)
    requires prev <= pos < |full| && full[pos] == delim && delim !in full[prev..pos]
    ensures result + [full[prev..pos]] + Tokens(full[pos + 1..], delim) == result + Tokens(full[prev..], delim)
  {
    TokensOfSuffix(full, prev, pos, delim);
    assert result + [full[prev..pos]] + Tokens(full[pos + 1..], delim)
        == result + ([full[prev..pos]] + Tokens(full[pos + 1..], delim));
  }

  lemma {:induction false} TokensWithoutDelimiter(token: string, delim: char)
    requires delim !in token
    ensures Tokens(token, delim) == [token]
  {
    if token != [] {
      TokensWithoutDelimiter(token[1..], delim);
      assert [token[0]] + token[1..] == token;
    }
  }

  lemma {:induction false} TokensAtDelimiter(token: string, rest: string, delim: char)
    requires delim !in token
    ensures Tokens(token + [delim] + rest, delim) == [token] + Tokens(rest, delim)
  {
    var full := token + [delim] + rest;
    if token == [] {
      assert full[1..] == rest;
    } else {
      assert full[1..] == token[1..] + [delim] + rest;
      TokensAtDelimiter(token[1..], rest, delim);
      assert [token[0]] + token[1..] == token;
      assert ([token[1..]] + Tokens(rest, delim))[1..] == Tokens(rest, delim);
    }
  }

  /** The same inside a longer string, from `prev` on, with the delimiter at `pos`. */
  lemma TokensOfSuffix(full: string, prev: nat, pos: nat, delim: char)
    requires prev <= pos < |full| && full[pos] == delim && delim !in full[prev..pos]
    ensures Tokens(full[prev..], delim) == [full[prev..pos]] + Tokens(full[pos + 1..], delim)
  {
    TokensAtDelimiter(full[prev..pos], full[pos + 1..], delim);
    assert full[prev..] == full[prev..pos] + [delim] + full[pos + 1..];
  }

  function Join(tokens: seq<string>, delim: char): string {
    if tokens == [] then ""
    else if |tokens| == 1 then tokens[0]
    else tokens[0] + [delim] + Join(tokens[1..], delim)
  }

  function Count(full: string, delim: char): nat {
    if full == [] then 0 else Count(full[1..], delim) + if full[0] == delim then 1 else 0
  }

  ghost predicate DelimiterFree(tokens: seq<string>, delim: char) {
    forall k :: 0 <= k < |tokens| ==> delim !in tokens[k]
  }

  lemma {:induction false} TokensShape(full: string, delim: char)
    ensures DelimiterFree(Tokens(full, delim), delim)
    ensures |Tokens(full, delim)| == Count(full, delim) + 1
    ensures Join(Tokens(full, delim), delim) == full
  {
    if full != [] {
      var rest := Tokens(full[1..], delim);
      TokensShape(full[1..], delim);
      if full[0] == delim {
        assert ([""] + rest)[1..] == rest;
      } else {
        assert Tokens(full, delim)[1..] == rest[1..];
      }
    }
  }

  /** Joining the tokens gives the string back; they are free of the delimiter and, unless the string
      is empty, one more than the delimiters. */
  lemma SplitThenJoin(full: string, delim: char)
    ensures Join(Split(full, delim), delim) == full
    ensures DelimiterFree(Split(full, delim), delim)
    ensures |Split(full, delim)| == if full == "" then 0 else Count(full, delim) + 1
  {
    TokensShape(full, delim);
  }

  lemma {:induction false} JoinThenTokens(tokens: seq<string>, delim: char)
    requires tokens != [] && DelimiterFree(tokens, delim)
    ensures Tokens(Join(tokens, delim), delim) == tokens
  {
    if |tokens| == 1 {
      TokensWithoutDelimiter(tokens[0], delim);
    } else {
      JoinThenTokens(tokens[1..], delim);
      TokensAtDelimiter(tokens[0], Join(tokens[1..], delim), delim);
    }
  }

  /** Splitting a joined list gives the list back exactly when its tokens are free of the delimiter and
      it is not the list holding one empty token. */
  lemma JoinThenSplit(tokens: seq<string>, delim: char)
    ensures Split(Join(tokens, delim), delim) == tokens <==>
            DelimiterFree(tokens, delim) && tokens != [""]
  {
    SplitThenJoin(Join(tokens, delim), delim);
    if tokens != [] && DelimiterFree(tokens, delim) {
      JoinThenTokens(tokens, delim);
    }
  }
}
