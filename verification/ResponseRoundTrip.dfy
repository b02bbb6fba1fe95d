/** Laws of the response printer: it loses nothing, and the gateway's own parser reads its output
    back as far as the reason phrase allows. */
module ResponseRoundTrip {
  import opened TextStream
  import opened Decimal
  import opened HttpParser
  import opened HttpRoundTrip

  predicate Printable(res: Response) { '\n' !in res.reason && FitLines(res.fields) }

  // ---------------------------------------------------------------- reading it back

  /** The fields the parser gets to see: a reason without a visible character makes it take the
      first field's line, if there is one, for the rest of the start line. */
  function Visible(res: Response): seq<Field> {
    if AllSpace(res.reason) && res.fields != [] then res.fields[1..] else res.fields
  }

  /** A reason without a visible character, and no field: the blank line is lost as well, and the
      body is read where the start line should go on. */
  predicate NothingVisible(res: Response) { AllSpace(res.reason) && res.fields == [] }

  predicate Has(parsed: Result<Request>, headers: Headers, body: string) {
    parsed.Ok? && parsed.value.headers == headers && parsed.value.body == body
  }

  predicate Recovers(res: Response) {
    Has(ParseRequest(PrintResponse(res)), FirstWins(map[], res.fields), res.body)
  }

  /** Parsing a printed response recovers the first-wins field map and the body exactly when the
      visible fields make up the same map, there is one, and they declare the body. Without a
      visible field there must be no body, and either nothing visible at all, or one lost field
      that looks like the header which the parser makes of the blank line. */
  lemma ResponseRoundTrip(res: Response)
    requires Printable(res)
    ensures Recovers(res) <==>
            if Visible(res) == [] then res.body == "" && (NothingVisible(res) || res.fields == [Field("\r", "")])
            else FirstWins(map[], Visible(res)) == FirstWins(map[], res.fields) && DeclaresBody(Visible(res), res.body)
  {
    ResponseStartLine(res);
    var text := PrintResponse(res);
    var start := ParseStartLine(text);
    if NothingVisible(res) {
      BodyOnStartLine(text, res.body);
    } else if Visible(res) != [] {
      RestRecovers(start, Visible(res), FirstWins(map[], res.fields), res.body);
    } else {
      BlankRecovers(start, res.fields, res.body);
    }
  }

  /** With a reason that can be seen: exactly when the response declares its body. */
  lemma VisibleReasonRoundTrip(res: Response)
    requires Printable(res) && res.fields != [] && !AllSpace(res.reason)
    ensures Recovers(res) <==> DeclaresBody(res.fields, res.body)
  {
    ResponseRoundTrip(res);
  }

  lemma RestRecovers(start: StartLine, visible: seq<Field>, headers: Headers, body: string)
    requires start.after == Open(PrintTail(visible, body)) && FitLines(visible) && visible != []
    ensures Has(ParseRest(start), headers, body) <==>
            FirstWins(map[], visible) == headers && DeclaresBody(visible, body)
  {
    ParseAfterStart(start, visible, body);
    AssembledExactly(start, visible, body);
  }

  lemma BlankRecovers(start: StartLine, fields: seq<Field>, body: string)
    requires start.after == Open(PrintTail([], body)) && |fields| <= 1
    ensures Has(ParseRest(start), FirstWins(map[], fields), body) <==> body == "" && fields == [Field("\r", "")]
  {
    ParseAfterStart(start, [], body);
    LoneField(fields);
    var r := ParseRest(start);
    if r.Ok? && r.value.headers == map["\r" := ""] {
      NoLengthNoBody(start);
    }
  }

  lemma LoneField(fields: seq<Field>)
    requires |fields| <= 1
    ensures "\r" in FirstWins(map[], fields) && FirstWins(map[], fields)["\r"] == "" <==> fields == [Field("\r", "")]
    ensures fields == [Field("\r", "")] ==> FirstWins(map[], fields) == map["\r" := ""]
    ensures "\r" in FirstWins(map[], fields) && FirstWins(map[], fields)["\r"] == "" ==>
              FirstWins(map[], fields) == map["\r" := ""]
  {
    if fields != [] {
      var f := fields[0];
      assert FirstWins(map[], fields) == FirstWins(map[f.name := f.value], fields[1..]) == map[f.name := f.value];
    }
  }

  lemma NoLengthNoBody(start: StartLine)
    requires ParseRest(start).Ok? && ParseRest(start).value.headers == map["\r" := ""]
    ensures ParseRest(start).value.body == ""
  {
    assert |CONTENT_LENGTH| != |"\r"|;
  }

  lemma BodyOnStartLine(text: string, body: string)
    requires ParseStartLine(text).after == GetLine(Extract(Open(body), "").after, "", '\n').after
    ensures Has(ParseRequest(text), map[], body) <==> body == ""
  {
    ParsedBody(text);
    if body == "" {
      assert Extract(Open(body), "").after == Stream("", true, true);
      assert !ParseStartLine(text).after.Good();
    }
  }

  predicate StartsLike(res: Response, start: StartLine) {
    && start.verb == VersionText(res.version)
    && AllDigits(start.target) && Value(start.target) == res.status
    && if NothingVisible(res) then
         start.after == GetLine(Extract(Open(res.body), "").after, "", '\n').after
       else
         && start.version == FirstWord(if AllSpace(res.reason) then FieldLine(res.fields[0]) else res.reason)
         && start.after == Open(PrintTail(Visible(res), res.body)) && FitLines(Visible(res))
  }

  /** What the parser takes from the start line: the version, the digits of the status, and the first
      word of a visible reason, or else of the line it takes for it. And where it stands then: in front
      of the visible fields; or, if nothing is visible, behind the first line of the body that has a
      word. */
  lemma ResponseStartLine(res: Response)
    requires Printable(res)
    ensures StartsLike(res, ParseStartLine(PrintResponse(res)))
  {
    if NothingVisible(res) {
      LostBlankLine(res);
    } else if AllSpace(res.reason) {
      LostField(res);
    } else {
      VisibleReason(res);
    }
  }

  lemma VisibleReason(res: Response)
    requires Printable(res) && !AllSpace(res.reason)
    ensures ParseStartLine(PrintResponse(res)) ==
            StartLine(VersionText(res.version), ToDecimal(res.status), FirstWord(res.reason),
                      Open(PrintTail(res.fields, res.body)))
  {
    var version, status := VersionText(res.version), ToDecimal(res.status);
    VersionWord(res.version);
    assert version + " " + status + " " + "" == version + " " + status + " ";
    StartLineAt(version, status, "", res.reason, PrintTail(res.fields, res.body));
  }

  lemma LostBlankLine(res: Response)
    requires NothingVisible(res)
    ensures var start := ParseStartLine(PrintResponse(res));
            && start.verb == VersionText(res.version) && start.target == ToDecimal(res.status)
            && start.after == GetLine(Extract(Open(res.body), "").after, "", '\n').after
  {
    var version, status := VersionText(res.version), ToDecimal(res.status);
    VersionWord(res.version);
    NothingVisibleText(version, status, res.reason, res.body);
    BlankLead(version, status, " " + res.reason + "\r\n\r\n", res.body);
  }

  lemma LostField(res: Response)
    requires Printable(res) && AllSpace(res.reason) && res.fields != []
    ensures ParseStartLine(PrintResponse(res)) ==
            StartLine(VersionText(res.version), ToDecimal(res.status), FirstWord(FieldLine(res.fields[0])),
                      Open(PrintTail(res.fields[1..], res.body)))
  {
    var version, status := VersionText(res.version), ToDecimal(res.status);
    VersionWord(res.version);
    var f, rest := res.fields[0], res.fields[1..];
    var tail := PrintTail(rest, res.body);
    assert [f] + rest == res.fields;
    TailCons(f, rest, res.body);
    FieldLineParts(f);
    var line := FieldLine(f);
    assert line[|f.name|] == ':' && !IsSpace(':');
    assert '\n' !in line by { assert forall c | c in line :: c in line + "\r"; }
    BlankReason(version, status, res.reason, line, tail);
    StartLineAt(version, status, res.reason + "\r\n", line, tail);
  }

  /** White space behind two words does not matter: the third is looked for in what follows. */
  lemma BlankLead(a: string, b: string, blanks: string, rest: string)
    requires IsWord(a) && IsWord(b) && AllSpace(blanks) && blanks != ""
    ensures var start := ParseStartLine(a + (" " + b + (blanks + rest)));
            && start.verb == a && start.target == b
            && start.after == GetLine(Extract(Open(rest), "").after, "", '\n').after
  {
    assert (blanks + rest)[0] == blanks[0];
    FirstTwoWords(a, b, blanks + rest);
    ExtractSkips(blanks, rest);
  }

  lemma ExtractSkips(blanks: string, rest: string)
    requires AllSpace(blanks)
    ensures Extract(Open(blanks + rest), "") == Extract(Open(rest), "")
  {
    SpaceRunSkips(blanks, rest);
    DropFront(blanks, rest, SpaceRun(rest));
    ExtractFrom(blanks + rest, rest[SpaceRun(rest)..]);
    ExtractFrom(rest, rest[SpaceRun(rest)..]);
  }

  lemma ExtractFrom(s: string, w: string)
    requires w == s[SpaceRun(s)..]
    ensures Extract(Open(s), "") ==
            if w == "" then Reading(Stream("", true, true), "")
            else Reading(Stream(w[WordRun(w)..], WordRun(w) == |w|, false), w[..WordRun(w)])
  {
  }

  lemma DropFront(front: string, rest: string, k: nat)
    requires k <= |rest|
    ensures (front + rest)[|front| + k..] == rest[k..]
  {
  }

  lemma {:induction false} SpaceRunSkips(blanks: string, rest: string)
    requires AllSpace(blanks)
    ensures SpaceRun(blanks + rest) == |blanks| + SpaceRun(rest)
  {
    if blanks == "" {
      assert blanks + rest == rest;
    } else {
      assert (blanks + rest)[1..] == blanks[1..] + rest;
      SpaceRunSkips(blanks[1..], rest);
    }
  }

  lemma NothingVisibleText(version: string, status: string, reason: string, body: string)
    ensures version + " " + status + " " + reason + "\r\n" + PrintTail([], body) ==
            version + (" " + status + ((" " + reason + "\r\n\r\n") + body))
  {
  }

  lemma BlankReason(version: string, status: string, reason: string, line: string, tail: string)
    ensures version + " " + status + " " + reason + "\r\n" + ((line + "\r") + ['\n'] + tail) ==
            version + " " + status + " " + (reason + "\r\n") + line + "\r\n" + tail
  {
  }

  /** The printed text, read without the parser: up to the first blank stands the version, up to the
      next the digits of the status, and up to the end of the line the reason. */
  lemma StatusLineText(res: Response)
    requires Printable(res)
    ensures var version := GetLine(Open(PrintResponse(res)), "", ' ');
            var status := GetLine(version.after, "", ' ');
            var reason := GetLine(status.after, "", '\n');
            && version.text == "HTTP/" + ToDecimal(res.version / 10) + "." + ToDecimal(res.version % 10)
            && AllDigits(status.text) && Value(status.text) == res.status
            && reason == Reading(Open(PrintTail(res.fields, res.body)), res.reason + "\r")
  {
    var version, status, tail := VersionText(res.version), ToDecimal(res.status), PrintTail(res.fields, res.body);
    VersionIsFormula(res.version);
    VersionWord(res.version);
    NoBlank(version);
    NoBlank(status);
    StatusLine(version, status, res.reason, tail);
    var rest := res.reason + "\r" + ['\n'] + tail;
    GetLineAt(version, ' ', status + [' '] + rest, "");
    GetLineAt(status, ' ', rest, "");
    GetLineAt(res.reason + "\r", '\n', tail, "");
  }

  // ---------------------------------------------------------------- version and status

  /** The two named versions are instances of the general formula. */
  lemma VersionIsFormula(version: nat)
    ensures VersionText(version) == "HTTP/" + ToDecimal(version / 10) + "." + ToDecimal(version % 10)
  {
    if version == 10 || version == 11 {
      assert ToDecimal(1) == "1" && ToDecimal(0) == "0";
      assert VersionText(version)[..7] == "HTTP/1.";
    }
  }

  lemma VersionWord(version: nat)
    ensures IsWord(VersionText(version)) && "HTTP/" <= VersionText(version)
    ensures forall n: nat :: IsWord(ToDecimal(n))
  {
    VersionIsFormula(version);
    forall n: nat ensures IsWord(ToDecimal(n)) {
      assert forall i | 0 <= i < |ToDecimal(n)| :: IsDigit(ToDecimal(n)[i]);
    }
    assert IsWord(ToDecimal(version / 10)) && IsWord(ToDecimal(version % 10));
  }

  /** Two texts that agree agree on both sides of their first `c`. */
  lemma CutUnique(a: string, x: string, b: string, y: string, c: char)
    requires c !in a && c !in b && a + [c] + x == b + [c] + y
    ensures a == b && x == y
  {
    RunUntilAt(a, c, x);
    RunUntilAt(b, c, y);
    assert (a + [c] + x)[..|a|] == a && (b + [c] + y)[..|b|] == b;
    assert (a + [c] + x)[|a| + 1..] == x && (b + [c] + y)[|b| + 1..] == y;
  }

  lemma VersionInjective(v: nat, w: nat)
    requires VersionText(v) == VersionText(w)
    ensures v == w
  {
    VersionIsFormula(v);
    VersionIsFormula(w);
    var a, b := ToDecimal(v / 10), ToDecimal(w / 10);
    assert VersionText(v)[5..] == a + ['.'] + ToDecimal(v % 10);
    assert VersionText(w)[5..] == b + ['.'] + ToDecimal(w % 10);
    CutUnique(a, ToDecimal(v % 10), b, ToDecimal(w % 10), '.');
    assert Value(a) == Value(b) && Value(ToDecimal(v % 10)) == Value(ToDecimal(w % 10));
  }

  // ---------------------------------------------------------------- injectivity

  lemma {:induction false} TailInjective(fs: seq<Field>, b: string, gs: seq<Field>, c: string)
    requires FitLines(fs) && FitLines(gs) && PrintTail(fs, b) == PrintTail(gs, c)
    ensures fs == gs && b == c
  {
    var line, after := TailCut(fs, b);
    var line', after' := TailCut(gs, c);
    CutUnique(line, after, line', after', '\n');
    assert !HasSeparator("\r");
    if fs != [] {
      FieldLineParts(fs[0]);
      FieldLineParts(gs[0]);
      TailInjective(fs[1..], b, gs[1..], c);
      assert fs == [fs[0]] + fs[1..] && gs == [gs[0]] + gs[1..];
    }
  }

  /** The first line of a tail, and what follows it. */
  lemma TailCut(fs: seq<Field>, b: string) returns (line: string, after: string)
    requires FitLines(fs)
    ensures '\n' !in line && PrintTail(fs, b) == line + ['\n'] + after
    ensures HasSeparator(line) <==> fs != []
    ensures if fs == [] then line == "\r" && after == b
            else line == FieldLine(fs[0]) + "\r" && after == PrintTail(fs[1..], b)
  {
    if fs == [] {
      line, after := "\r", b;
      assert PrintTail(fs, b) == line + ['\n'] + after;
    } else {
      FieldLineParts(fs[0]);
      TailCons(fs[0], fs[1..], b);
      assert [fs[0]] + fs[1..] == fs;
      line, after := FieldLine(fs[0]) + "\r", PrintTail(fs[1..], b);
    }
  }

  /** Different responses are printed differently. */
  lemma PrintResponseInjective(p: Response, q: Response)
    requires Printable(p) && Printable(q) && PrintResponse(p) == PrintResponse(q)
    ensures p == q
  {
    var tp, tq := PrintTail(p.fields, p.body), PrintTail(q.fields, q.body);
    var rp, rq := p.reason + "\r" + ['\n'] + tp, q.reason + "\r" + ['\n'] + tq;
    var sp, sq := ToDecimal(p.status), ToDecimal(q.status);
    StatusLine(VersionText(p.version), sp, p.reason, tp);
    StatusLine(VersionText(q.version), sq, q.reason, tq);
    VersionWord(p.version);
    VersionWord(q.version);
    NoBlank(VersionText(p.version));
    NoBlank(VersionText(q.version));
    NoBlank(sp);
    NoBlank(sq);
    CutUnique(VersionText(p.version), sp + [' '] + rp, VersionText(q.version), sq + [' '] + rq, ' ');
    CutUnique(sp, rp, sq, rq, ' ');
    CutUnique(p.reason + "\r", tp, q.reason + "\r", tq, '\n');
    VersionInjective(p.version, q.version);
    TailInjective(p.fields, p.body, q.fields, q.body);
    assert (p.reason + "\r")[..|p.reason|] == p.reason && (q.reason + "\r")[..|q.reason|] == q.reason;
    assert p.status == Value(sp) == Value(sq) == q.status;
  }

  lemma NoBlank(word: string)
    requires NoSpace(word)
    ensures ' ' !in word
  {
    assert IsSpace(' ');
  }

  lemma StatusLine(version: string, status: string, reason: string, tail: string)
    ensures version + " " + status + " " + reason + "\r\n" + tail ==
            version + [' '] + (status + [' '] + (reason + "\r" + ['\n'] + tail))
  {
  }
}
