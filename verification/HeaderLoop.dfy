/** The parser on any text: what the header loop makes of every sequence of lines, and of texts that
    end early. Nothing is asked of the lines but that they hold no LF. */
module HeaderLoop {
  import opened TextStream
  import opened Decimal
  import opened HttpParser
  import opened HttpRoundTrip

  /** Lines, each with its LF. */
  function Lines(lines: seq<string>): string {
    if lines == [] then "" else lines[0] + ['\n'] + Lines(lines[1..])
  }

  /** What a line is cut into. */
  function Cuts(lines: seq<string>): seq<Field> {
    if lines == [] then [] else [Field(HeaderName(lines[0]), HeaderValue(lines[0]))] + Cuts(lines[1..])
  }

  /** A line that the loop takes as its number `count`: it is not empty, and has a ": " or is the first. */
  predicate Taken(line: string, count: nat) { line != "" && '\n' !in line && (HasSeparator(line) || count == 0) }

  predicate AllTaken(lines: seq<string>, count: nat) {
    lines == [] || (Taken(lines[0], count) && AllTaken(lines[1..], count + 1))
  }

  // ---------------------------------------------------------------- the loop

  /** After lines that are taken, the loop ends at the first that is not: this one is gone, each of the
      others has become a field, and what follows is unread. */
  lemma {:induction false} LoopEnds(lines: seq<string>, line: string, tail: string, count: nat, headers: Headers)
    requires AllTaken(lines, count) && '\n' !in line && !Taken(line, count + |lines|)
    ensures ParseFields(Open(Lines(lines) + (line + ['\n'] + tail)), count, headers) ==
            FieldBlock(FirstWins(headers, Cuts(lines)), Open(tail))
    decreases |lines|
  {
    var end := line + ['\n'] + tail;
    if lines == [] {
      assert "" + end == end;
      BlockEndsAt(line, tail, count, headers);
    } else {
      TakeFirst(lines, end, count, headers);
      CutsCons(lines, headers);
      LoopEnds(lines[1..], line, tail, count + 1, Emplace(headers, HeaderName(lines[0]), HeaderValue(lines[0])));
    }
  }

  lemma BlockEndsAt(line: string, tail: string, count: nat, headers: Headers)
    requires '\n' !in line && !Taken(line, count)
    ensures ParseFields(Open(line + ['\n'] + tail), count, headers) == FieldBlock(headers, Open(tail))
  {
    GetLineAt(line, '\n', tail, "");
  }

  lemma CutsCons(lines: seq<string>, headers: Headers)
    requires lines != []
    ensures FirstWins(headers, Cuts(lines)) ==
            FirstWins(Emplace(headers, HeaderName(lines[0]), HeaderValue(lines[0])), Cuts(lines[1..]))
  {
    assert Cuts(lines)[1..] == Cuts(lines[1..]);
  }

  lemma TakeFirst(lines: seq<string>, end: string, count: nat, headers: Headers)
    requires lines != [] && Taken(lines[0], count)
    ensures ParseFields(Open(Lines(lines) + end), count, headers) ==
            ParseFields(Open(Lines(lines[1..]) + end), count + 1,
                        Emplace(headers, HeaderName(lines[0]), HeaderValue(lines[0])))
  {
    assert Lines(lines) + end == lines[0] + ['\n'] + (Lines(lines[1..]) + end);
    TakeLine(lines[0], Lines(lines[1..]) + end, count, headers);
  }

  /** A text that is used up first: its last line counts although it has no LF, and nothing is left. */
  lemma {:induction false} LoopRunsOut(lines: seq<string>, last: string, count: nat, headers: Headers)
    requires AllTaken(lines, count) && '\n' !in last
    ensures var block := ParseFields(Open(Lines(lines) + last), count, headers);
            && block.headers ==
               FirstWins(headers, Cuts(lines) + if Taken(last, count + |lines|) then Cuts([last]) else [])
            && block.after.rest == "" && !block.after.Good()
    decreases |lines|
  {
    if lines == [] {
      assert "" + last == last;
      LastLine(last, count, headers);
    } else {
      TakeFirst(lines, last, count, headers);
      var f := Field(HeaderName(lines[0]), HeaderValue(lines[0]));
      LoopRunsOut(lines[1..], last, count + 1, Emplace(headers, f.name, f.value));
      var more := if Taken(last, count + |lines|) then Cuts([last]) else [];
      Assoc([f], Cuts(lines[1..]), more);
      assert (Cuts(lines) + more)[1..] == Cuts(lines[1..]) + more;
    }
  }

  lemma LastLine(last: string, count: nat, headers: Headers)
    requires '\n' !in last
    ensures var block := ParseFields(Open(last), count, headers);
            && block.headers == FirstWins(headers, if Taken(last, count) then Cuts([last]) else [])
            && block.after.rest == "" && !block.after.Good()
  {
    var r := GetLine(Open(last), "", '\n');
    assert r == Reading(Stream("", true, last == ""), last);
    if Taken(last, count) {
      var taken := Emplace(headers, HeaderName(last), HeaderValue(last));
      assert ParseFrom(GetLine(r.after, "", '\n'), count + 1, taken) == FieldBlock(taken, Stream("", true, true));
      OneCut(last, headers);
    }
  }

  lemma OneCut(line: string, headers: Headers)
    ensures FirstWins(headers, Cuts([line])) == Emplace(headers, HeaderName(line), HeaderValue(line))
  {
    var f := Field(HeaderName(line), HeaderValue(line));
    assert Cuts([line]) == [f] && [f][1..] == [];
  }

  /** Every text is of one of the two kinds. */
  lemma {:induction false} LoopForms(text: string, count: nat)
    returns (lines: seq<string>, last: string, tail: string, ends: bool)
    ensures AllTaken(lines, count) && '\n' !in last
    ensures if ends then text == Lines(lines) + (last + ['\n'] + tail) && !Taken(last, count + |lines|)
            else text == Lines(lines) + last
    decreases |text|
  {
    lines, last, tail := [], text, "";
    ends := '\n' in text;
    if ends {
      var k := RunUntil(text, '\n');
      last, tail := text[..k], text[k + 1..];
      assert text == last + ['\n'] + tail;
      if Taken(last, count) {
        var first, rest := last, tail;
        lines, last, tail, ends := LoopForms(rest, count + 1);
        var behind := if ends then last + ['\n'] + tail else last;
        Assoc(first + ['\n'], Lines(lines), behind);
        assert ([first] + lines)[1..] == lines;
        lines := [first] + lines;
      } else {
        assert "" + (last + ['\n'] + tail) == last + ['\n'] + tail;
      }
    } else {
      assert "" + text == text;
    }
  }

  // ---------------------------------------------------------------- the start line

  /** Three words with any white space around them, line ends included, are taken; the rest of the line
      on which the third one stands is thrown away, and the header loop starts behind it. */
  lemma WordsAnywhere(blanks: seq<string>, a: string, b: string, c: string, dropped: string, tail: string)
    requires |blanks| == 3 && (forall i | 0 <= i < 3 :: AllSpace(blanks[i])) && blanks[1] != "" && blanks[2] != ""
    requires IsWord(a) && IsWord(b) && IsWord(c)
    requires '\n' !in dropped && (dropped == "" || IsSpace(dropped[0]))
    ensures ParseStartLine(blanks[0] + (a + (blanks[1] + (b + (blanks[2] + (c + (dropped + ['\n'] + tail))))))) ==
            StartLine(a, b, c, Open(tail))
  {
    var after3 := dropped + ['\n'] + tail;
    var after2 := blanks[2] + (c + after3);
    var after1 := blanks[1] + (b + after2);
    assert after3[0] == if dropped == "" then '\n' else dropped[0];
    NextWord(blanks[0], a, after1);
    NextWord(blanks[1], b, after2);
    NextWord(blanks[2], c, after3);
    GetLineAt(dropped, '\n', tail, "");
  }


  /** An empty line right behind the start line: no header is taken, and no body, whatever follows.
      The start line may end in a bare LF. */
  lemma EmptyBlock(a: string, b: string, c: string, cr: string, tail: string)
    requires IsWord(a) && IsWord(b) && IsWord(c) && cr in ["", "\r"]
    ensures ParseRequest(a + (" " + b + (" " + c + (cr + ['\n'] + ("\n" + tail))))) == Ok(Request(a, b, c, map[], ""))
  {
    ThreeWords(a, b, " ", c, cr, "\n" + tail);
    EmptyLineEnds(tail, 0, map[]);
  }

  /** A text of up to three words that ends on the line of the last one: they are what was asked for,
      missing ones are empty, and there is neither a header nor a body. */
  lemma TruncatedRequest(blanks: seq<string>, a: string, b: string, c: string)
    requires |blanks| == 4 && (forall i | 0 <= i < 4 :: AllSpace(blanks[i])) && '\n' !in blanks[3]
    requires NoSpace(a) && NoSpace(b) && NoSpace(c)
    requires (a == "" ==> b == "") && (b == "" ==> c == "")
    requires (b != "" ==> blanks[1] != "") && (c != "" ==> blanks[2] != "")
    ensures ParseRequest(blanks[0] + (a + (blanks[1] + (b + (blanks[2] + (c + blanks[3])))))) ==
            Ok(Request(a, b, c, map[], ""))
  {
    var after2 := blanks[2] + (c + blanks[3]);
    var after1 := blanks[1] + (b + after2);
    var text := blanks[0] + (a + after1);
    NextWord(blanks[0], a, after1);
    NextWord(blanks[1], b, after2);
    NextWord(blanks[2], c, blanks[3]);
    NoMoreLines(ParseStartLine(text));
  }

  lemma NextWord(blanks: string, word: string, after: string)
    requires AllSpace(blanks) && NoSpace(word)
    requires if word == "" then AllSpace(after) else after == "" || IsSpace(after[0])
    ensures Extract(Open(blanks + (word + after)), "") ==
            if word == "" then Reading(Stream("", true, true), "")
            else if after == "" then Reading(Stream("", true, false), word)
            else Reading(Open(after), word)
  {
    if word == "" {
      assert blanks + ("" + after) == blanks + after;
    } else {
      SpaceRunAt(blanks, word + after);
      assert (blanks + (word + after))[|blanks|..] == word + after;
      if after == "" {
        assert word + after == word && word[..|word|] == word;
      } else {
        WordRunAt(word, after);
        assert (word + after)[..|word|] == word && (word + after)[|word|..] == after;
      }
    }
  }

  lemma NoMoreLines(start: StartLine)
    requires !start.after.Good()
    ensures ParseRest(start) == Ok(Request(start.verb, start.target, start.version, map[], ""))
  {
  }
}
