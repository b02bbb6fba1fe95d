/** Input text streams: the part of std::istringstream that the gateway's parsers use.
    `Stream` is the value view (unread characters and the two error bits); the class
    `InputStringStream` is the object the parsers consume. */
module TextStream {

  // The "C" locale's isspace: blank, and the five controls from TAB to CR.
  predicate IsSpace(c: char) { c == ' ' || '\t' <= c <= '\r' }

  /** By their codes: HT, LF, VT, FF, CR and the blank. */
  lemma SpaceCodes(c: char)
    ensures IsSpace(c) <==> c as int in {9, 10, 11, 12, 13, 32}
  {
  }

  predicate AllSpace(s: string) { forall i | 0 <= i < |s| :: IsSpace(s[i]) }

  predicate NoSpace(s: string) { forall i | 0 <= i < |s| :: !IsSpace(s[i]) }

  lemma Assoc<T>(a: seq<T>, b: seq<T>, c: seq<T>)
    ensures a + b + c == a + (b + c)
  {
  }

  /** The length of the longest prefix of `s` without `c`. */
  function RunUntil(s: string, c: char): (k: nat)
    ensures k <= |s| && c !in s[..k]
    ensures k < |s| ==> s[k] == c
    ensures k == |s| <==> c !in s
  {
    if s == "" || s[0] == c then 0 else 1 + RunUntil(s[1..], c)
  }

  /** The number of leading white-space characters. */
  function SpaceRun(s: string): (k: nat)
    ensures k <= |s| && AllSpace(s[..k])
    ensures k < |s| ==> !IsSpace(s[k])
    ensures k == |s| <==> AllSpace(s)
  {
    if s == "" || !IsSpace(s[0]) then 0 else 1 + SpaceRun(s[1..])
  }

  /** The number of leading characters that are not white space. */
  function WordRun(s: string): (k: nat)
    ensures k <= |s| && NoSpace(s[..k])
    ensures k < |s| ==> IsSpace(s[k])
    ensures k == |s| <==> NoSpace(s)
  {
    if s == "" || IsSpace(s[0]) then 0 else 1 + WordRun(s[1..])
  }

  /** The three runs are determined by what follows them. */
  lemma {:induction false} RunUntilAt(a: string, c: char, b: string)
    requires c !in a
    ensures RunUntil(a + [c] + b, c) == |a|
  {
    if a == "" {
      assert (a + [c] + b)[0] == c;
    } else {
      assert (a + [c] + b)[1..] == a[1..] + [c] + b;
      RunUntilAt(a[1..], c, b);
    }
  }

  lemma {:induction false} SpaceRunAt(a: string, b: string)
    requires AllSpace(a) && b != "" && !IsSpace(b[0])
    ensures SpaceRun(a + b) == |a|
  {
    if a == "" {
      assert a + b == b;
    } else {
      assert (a + b)[1..] == a[1..] + b;
      SpaceRunAt(a[1..], b);
    }
  }

  lemma {:induction false} WordRunAt(a: string, b: string)
    requires NoSpace(a) && b != "" && IsSpace(b[0])
    ensures WordRun(a + b) == |a|
  {
    if a == "" {
      assert a + b == b;
    } else {
      assert (a + b)[1..] == a[1..] + b;
      WordRunAt(a[1..], b);
    }
  }

  /** A stream: what is still unread, and eofbit and failbit. */
  datatype Stream = Stream(rest: string, eof: bool, fail: bool) {
    predicate Good() { !eof && !fail }

    // Errors are raised only at the end of the text, so a stream that is not good is used up.
    predicate Sane() { !Good() ==> rest == "" }
  }

  /** The stream after a read, and the string variable that received the text. */
  datatype Reading = Reading(after: Stream, text: string)

  function Open(text: string): Stream { Stream(text, false, false) }

  /** `stream >> word`, where `word` holds `previous` beforehand. */
  function Extract(s: Stream, previous: string): (r: Reading)
    ensures s.Sane() ==> r.after.Sane()
    ensures s.Good() && !AllSpace(s.rest) ==>
              !r.after.fail && r.text != "" && NoSpace(r.text)
    ensures !s.Good() || AllSpace(s.rest) ==> r.after.fail && r.text == previous
  {
    if !s.Good() then Reading(s.(fail := true), previous)
    else
      var k := SpaceRun(s.rest);
      var w := s.rest[k..];
      if w == "" then Reading(Stream("", true, true), previous)
      else
        var n := WordRun(w);
        Reading(Stream(w[n..], n == |w|, false), w[..n])
  }

  /** Only white space is skipped, and nothing behind the word is touched. */
  lemma ExtractConserves(s: Stream, previous: string)
    requires s.Good() && !AllSpace(s.rest)
    ensures var r := Extract(s, previous); s.rest == s.rest[..SpaceRun(s.rest)] + r.text + r.after.rest
  {
    TwoCuts(s.rest, SpaceRun(s.rest), WordRun(s.rest[SpaceRun(s.rest)..]));
  }

  lemma TwoCuts(s: string, k: nat, n: nat)
    requires k + n <= |s|
    ensures s == s[..k] + s[k..][..n] + s[k..][n..]
  {
  }

  /** `std::getline(stream, line, delimiter)`, where `line` holds `previous` beforehand. */
  function GetLine(s: Stream, previous: string, delimiter: char): (r: Reading)
    ensures s.Sane() ==> r.after.Sane()
    ensures s.Good() ==>
              && delimiter !in r.text
              && s.rest == r.text + (if r.after.eof then "" else [delimiter]) + r.after.rest
              && (r.after.fail <==> s.rest == "")
              && (r.after.eof ==> r.after.rest == "")
    ensures !s.Good() ==> r.after.fail && r.text == previous
    ensures !r.after.fail ==> |r.after.rest| < |s.rest|
  {
    if !s.Good() then Reading(s.(fail := true), previous)
    else
      var k := RunUntil(s.rest, delimiter);
      if k == |s.rest| then Reading(Stream("", true, s.rest == ""), s.rest)
      else Reading(Stream(s.rest[k + 1..], false, false), s.rest[..k])
  }

  /** `stream.read(buffer, n)`: the characters that were stored in the buffer. */
  function ReadBlock(s: Stream, n: nat): (r: Reading)
    ensures s.Sane() ==> r.after.Sane()
    ensures s.Sane() ==> |r.text| == (if n <= |s.rest| then n else |s.rest|)
    ensures s.Sane() ==> s.rest == r.text + r.after.rest
  {
    if !s.Good() then Reading(s.(fail := true), "")
    else if n <= |s.rest| then Reading(s.(rest := s.rest[n..]), s.rest[..n])
    else Reading(Stream("", true, true), s.rest)
  }

  /** A line that is followed by its delimiter is read whole, whatever comes after it. */
  lemma GetLineAt(line: string, delimiter: char, tail: string, previous: string)
    requires delimiter !in line
    ensures GetLine(Open(line + [delimiter] + tail), previous, delimiter) == Reading(Open(tail), line)
  {
    RunUntilAt(line, delimiter, tail);
    var all := line + [delimiter] + tail;
    assert all[..|line|] == line && all[|line| + 1..] == tail;
  }

  /** A word between white space is extracted whole, and the stream stops right after it. */
  lemma ExtractAt(blanks: string, word: string, tail: string, previous: string)
    requires AllSpace(blanks) && NoSpace(word) && word != ""
    requires tail != "" && IsSpace(tail[0])
    ensures Extract(Open(blanks + word + tail), previous) == Reading(Open(tail), word)
  {
    var all := blanks + word + tail;
    assert all == blanks + (word + tail);
    SpaceRunAt(blanks, word + tail);
    assert all[|blanks|..] == word + tail;
    WordRunAt(word, tail);
    assert (word + tail)[..|word|] == word && (word + tail)[|word|..] == tail;
  }

  /** std::istringstream: the text, the get position and the error bits. */
  class InputStringStream {
    const data: string
    var pos: nat
    var eof: bool
    var fail: bool

    predicate Valid()
      reads this
    {
      pos <= |data| && (eof || fail ==> pos == |data|)
    }

    function State(): (s: Stream)
      requires Valid()
      reads this
      ensures s.Sane()
    {
      Stream(data[pos..], eof, fail)
    }

    constructor (text: string)
      ensures Valid() && State() == Open(text) && data == text
    {
      data, pos, eof, fail := text, 0, false, false;
    }

    method ExtractWord(previous: string) returns (word: string)
      requires Valid()
      modifies this
      ensures Valid()
      ensures Extract(old(State()), previous) == Reading(State(), word)
    {
      word := previous;
      if eof || fail {
        fail := true;
        return;
      }
      pos := pos + SpaceRun(data[pos..]);
      if pos == |data| {
        eof, fail := true, true;
        return;
      }
      var n := WordRun(data[pos..]);
      word := data[pos..][..n];
      assert data[pos..][n..] == data[pos + n..];
      pos := pos + n;
      eof := pos == |data|;
    }

    method ReadLine(previous: string, delimiter: char) returns (line: string, ok: bool)
      requires Valid()
      modifies this
      ensures Valid()
      ensures GetLine(old(State()), previous, delimiter) == Reading(State(), line)
      ensures ok == !fail
    {
      line := previous;
      if eof || fail {
        fail := true;
      } else {
        var k := RunUntil(data[pos..], delimiter);
        line := data[pos..][..k];
        if pos + k == |data| {
          eof, fail := true, line == "";
          pos := |data|;
        } else {
          assert data[pos..][k + 1..] == data[pos + k + 1..];
          pos := pos + k + 1;
        }
      }
      ok := !fail;
    }

    /** Overwrites the first characters of `buffer` with what can still be read. */
    method Read(buffer: string) returns (filled: string)
      requires Valid()
      modifies this
      ensures Valid()
      ensures var r := ReadBlock(old(State()), |buffer|);
              State() == r.after && filled == r.text + buffer[|r.text|..]
    {
      filled := buffer;
      if eof || fail {
        fail := true;
      } else if pos + |buffer| <= |data| {
        assert data[pos..][..|buffer|] == data[pos..pos + |buffer|];
        assert data[pos..][|buffer|..] == data[pos + |buffer|..];
        filled := data[pos..pos + |buffer|];
        pos := pos + |buffer|;
      } else {
        filled := data[pos..] + buffer[|data| - pos..];
        pos, eof, fail := |data|, true, true;
      }
    }
  }
}
