/** `split`: cutting a string at a delimiter with std::getline. */
module Delimited {
  import opened TextStream

  /** The tokens that a getline loop takes out of the stream. */
  function Tokens(s: Stream, delimiter: char): seq<string>
    decreases |s.rest|
  {
    var r := GetLine(s, "", delimiter);
    if r.after.fail then [] else [r.text] + Tokens(r.after, delimiter)
  }

  function Split(str: string, delimiter: char): seq<string> { Tokens(Open(str), delimiter) }

  /** One turn of the loop; the text left in the variable beforehand is irrelevant. */
  lemma TokensTurn(done: seq<string>, s: Stream, previous: string, delimiter: char)
    ensures var r := GetLine(s, previous, delimiter);
            done + Tokens(s, delimiter) ==
            if r.after.fail then done else done + [r.text] + Tokens(r.after, delimiter)
  {
  }

  const COMMA: char := ','

  method SplitString(str: string, delimiter: char := COMMA) returns (tokens: seq<string>)
    ensures tokens == Split(str, delimiter)
  {
    tokens := [];
    var ss := new InputStringStream(str);
    TokensTurn([], ss.State(), "", delimiter);
    var token, ok := ss.ReadLine("", delimiter);
    while ok
      invariant ss.Valid() && ok == !ss.fail && fresh(ss)
      invariant Split(str, delimiter) == if ok then tokens + [token] + Tokens(ss.State(), delimiter) else tokens
      decreases ok, |ss.State().rest|
    {
      tokens := tokens + [token];
      TokensTurn(tokens, ss.State(), token, delimiter);
      token, ok := ss.ReadLine(token, delimiter);
    }
  }

  function Join(ts: seq<string>, delimiter: char): string {
    if ts == [] then ""
    else if |ts| == 1 then ts[0]
    else ts[0] + [delimiter] + Join(ts[1..], delimiter)
  }

  predicate Free(ts: seq<string>, delimiter: char) {
    forall i | 0 <= i < |ts| :: delimiter !in ts[i]
  }

  /** What is left of the text when a single final delimiter is cut off. */
  function WithoutFinal(str: string, delimiter: char): string {
    if str != "" && str[|str| - 1] == delimiter then str[..|str| - 1] else str
  }

  /** The two shapes of a non-empty text: a last token, or a token, a delimiter and the rest. */
  lemma SplitLast(str: string, delimiter: char)
    requires str != "" && delimiter !in str
    ensures Split(str, delimiter) == [str]
  {
    assert RunUntil(str, delimiter) == |str|;
    assert GetLine(Open(str), "", delimiter) == Reading(Stream("", true, false), str);
    assert Tokens(Stream("", true, false), delimiter) == [];
  }

  lemma SplitFirst(token: string, delimiter: char, rest: string)
    requires delimiter !in token
    ensures Split(token + [delimiter] + rest, delimiter) == [token] + Split(rest, delimiter)
  {
    GetLineAt(token, delimiter, rest, "");
  }

  lemma Cut(str: string, delimiter: char) returns (token: string, rest: string)
    requires delimiter in str
    ensures delimiter !in token && str == token + [delimiter] + rest
  {
    var k := RunUntil(str, delimiter);
    token, rest := str[..k], str[k + 1..];
  }

  lemma JoinCons(token: string, ts: seq<string>, delimiter: char)
    requires ts != []
    ensures Join([token] + ts, delimiter) == token + [delimiter] + Join(ts, delimiter)
  {
    assert ([token] + ts)[1..] == ts;
  }

  /** Joining the tokens gives the text back, short of one final delimiter; no token holds one. */
  lemma {:induction false} JoinSplit(str: string, delimiter: char)
    ensures Join(Split(str, delimiter), delimiter) == WithoutFinal(str, delimiter)
    ensures Free(Split(str, delimiter), delimiter)
    ensures Split(str, delimiter) == [] <==> str == ""
    decreases |str|
  {
    if str == "" {
    } else if delimiter !in str {
      SplitLast(str, delimiter);
    } else {
      var token, rest := Cut(str, delimiter);
      SplitFirst(token, delimiter, rest);
      JoinSplit(rest, delimiter);
      if rest == "" {
        assert str[..|str| - 1] == token;
      } else {
        JoinCons(token, Split(rest, delimiter), delimiter);
        WithoutFinalOf(token + [delimiter], rest, delimiter);
      }
    }
  }

  lemma WithoutFinalOf(front: string, rest: string, delimiter: char)
    requires rest != ""
    ensures WithoutFinal(front + rest, delimiter) == front + WithoutFinal(rest, delimiter)
  {
    assert (front + rest)[|front + rest| - 1] == rest[|rest| - 1];
    assert (front + rest)[..|front + rest| - 1] == front + rest[..|rest| - 1];
  }

  /** Splitting a join returns the delimiter-free tokens exactly when the last is not empty. */
  lemma SplitJoin(ts: seq<string>, delimiter: char)
    requires Free(ts, delimiter)
    ensures Split(Join(ts, delimiter), delimiter) == ts <==> ts == [] || ts[|ts| - 1] != ""
  {
    if ts != [] && ts[|ts| - 1] != "" {
      SplitJoined(ts, delimiter);
    } else if ts != [] {
      JoinSplit(Join(ts, delimiter), delimiter);
      JoinEndsEmpty(ts, delimiter);
    }
  }

  lemma {:induction false} SplitJoined(ts: seq<string>, delimiter: char)
    requires Free(ts, delimiter) && ts != [] && ts[|ts| - 1] != ""
    ensures Split(Join(ts, delimiter), delimiter) == ts
    ensures Split(Join(ts, delimiter) + [delimiter], delimiter) == ts
  {
    var token, rest := ts[0], ts[1..];
    assert ts == [token] + rest;
    if rest == [] {
      SplitOne(token, delimiter);
    } else {
      assert Free(rest, delimiter) && rest[|rest| - 1] == ts[|ts| - 1];
      SplitJoined(rest, delimiter);
      JoinCons(token, rest, delimiter);
      SplitMore(token, Join(rest, delimiter), delimiter);
    }
  }

  lemma SplitOne(token: string, delimiter: char)
    requires delimiter !in token && token != ""
    ensures Split(token, delimiter) == [token]
    ensures Split(token + [delimiter], delimiter) == [token]
  {
    SplitLast(token, delimiter);
    SplitFirst(token, delimiter, "");
    assert token + [delimiter] + "" == token + [delimiter];
  }

  lemma SplitMore(token: string, tail: string, delimiter: char)
    requires delimiter !in token
    ensures Split(token + [delimiter] + tail, delimiter) == [token] + Split(tail, delimiter)
    ensures Split(token + [delimiter] + tail + [delimiter], delimiter) ==
            [token] + Split(tail + [delimiter], delimiter)
  {
    SplitFirst(token, delimiter, tail);
    SplitFirst(token, delimiter, tail + [delimiter]);
    Assoc(token + [delimiter], tail, [delimiter]);
  }

  lemma {:induction false} JoinEndsEmpty(ts: seq<string>, delimiter: char)
    requires ts != [] && ts[|ts| - 1] == ""
    ensures var all := Join(ts, delimiter);
            if |ts| == 1 then all == "" else all != "" && all[|all| - 1] == delimiter
  {
    if |ts| > 1 {
      JoinEndsEmpty(ts[1..], delimiter);
    }
  }
}
