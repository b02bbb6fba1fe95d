/** `isValidIPv4`: dotted quads of canonical decimal octets (dec-octet, section 3.2.2 of RFC 3986). */
module Ipv4 {
  import opened TextStream
  import opened Decimal
  import opened Delimited

  /** One octet's text, checked in the order of the source. */
  predicate OctetAccepted(oct: string) {
    && oct != "" && |oct| <= 3 && AllDigits(oct)
    && Value(oct) <= 255
    && !(oct[0] == '0' && |oct| > 1)
  }

  predicate FourAccepted(octets: seq<string>) {
    |octets| == 4 && forall k | 0 <= k < 4 :: OctetAccepted(octets[k])
  }

  /** `a.b.c.d` in canonical decimals. */
  function Quad(a: nat, b: nat, c: nat, d: nat): string {
    Join([ToDecimal(a), ToDecimal(b), ToDecimal(c), ToDecimal(d)], '.')
  }

  /** `s` spells the four octets, with or without one dot after the last. */
  predicate Spells(s: string, a: nat, b: nat, c: nat, d: nat) {
    && a <= 255 && b <= 255 && c <= 255 && d <= 255
    && (s == Quad(a, b, c, d) || s == Quad(a, b, c, d) + ".")
  }

  ghost predicate IsAddress(s: string) {
    exists a: nat, b: nat, c: nat, d: nat :: Spells(s, a, b, c, d)
  }

  method IsValidIPv4(ipAddress: string) returns (valid: bool)
    ensures valid <==> IsAddress(ipAddress)
  {
    var octets: seq<string> := [];
    var ss := new InputStringStream(ipAddress);
    TokensTurn([], ss.State(), "", '.');
    var octet, ok := ss.ReadLine("", '.');
    while ok
      invariant ss.Valid() && ok == !ss.fail && fresh(ss)
      invariant Split(ipAddress, '.') == if ok then octets + [octet] + Tokens(ss.State(), '.') else octets
      decreases ok, |ss.State().rest|
    {
      octets := octets + [octet];
      TokensTurn(octets, ss.State(), octet, '.');
      octet, ok := ss.ReadLine(octet, '.');
    }
    FourOctets(ipAddress);
    valid := CheckOctets(octets);
  }

  /** The second half of the function: exactly four octets, each of them acceptable. */
  method CheckOctets(octets: seq<string>) returns (valid: bool)
    ensures valid <==> FourAccepted(octets)
  {
    if |octets| != 4 {
      return false;
    }
    for i := 0 to 4
      invariant forall k | 0 <= k < i :: OctetAccepted(octets[k])
    {
      var accepted := CheckOctet(octets[i]);
      if !accepted {
        return false;
      }
    }
    return true;
  }

  /** One turn of that loop, with its checks in their order. */
  method CheckOctet(oct: string) returns (accepted: bool)
    ensures accepted <==> OctetAccepted(oct)
  {
    if oct == "" || |oct| > 3 || DigitRun(oct) < |oct| {
      return false;
    }
    SmallStoi(oct);
    var num := Stoi(oct).value;
    if num < 0 || num > 255 {
      return false;
    }
    if oct[0] == '0' && |oct| > 1 {
      return false;
    }
    return true;
  }

  /** Three digits always convert: std::stoi cannot throw here. */
  lemma SmallStoi(oct: string)
    requires oct != "" && |oct| <= 3 && AllDigits(oct)
    ensures Stoi(oct) == Ok(Value(oct))
  {
    assert IsDigit(oct[0]);
    assert SpaceRun(oct) == 0 && oct[0..] == oct && oct[..DigitRun(oct)] == oct;
    ValueBelow(oct);
  }

  lemma ValueBelow(oct: string)
    requires |oct| <= 3 && AllDigits(oct)
    ensures Value(oct) < 1000
  {
    if oct != "" {
      var f := oct[..|oct| - 1];
      if f != "" {
        var g := f[..|f| - 1];
        assert g != "" ==> g[..|g| - 1] == "";
        assert Value(g) < 10;
      }
    }
  }

  /** The octet test accepts exactly the numerals that ToDecimal prints for 0 to 255. */
  lemma OctetIsNumeral(oct: string)
    ensures OctetAccepted(oct) <==> exists n: nat :: n <= 255 && oct == ToDecimal(n)
  {
    if OctetAccepted(oct) {
      CanonicalIsPrinted(oct);
    }
    forall n: nat | n <= 255 && oct == ToDecimal(n) ensures OctetAccepted(oct) {
      ThreeDigits(n);
    }
  }

  lemma DigitsHaveNoDot(n: nat)
    ensures '.' !in ToDecimal(n)
  {
  }

  /** The source's test on the tokens is the language of the addresses. */
  lemma FourOctets(s: string)
    ensures IsAddress(s) <==> FourAccepted(Split(s, '.'))
  {
    var ts := Split(s, '.');
    if FourAccepted(ts) {
      AcceptedIsSpelled(s, ts);
    }
    forall a: nat, b: nat, c: nat, d: nat | Spells(s, a, b, c, d) ensures FourAccepted(ts) {
      SpelledIsAccepted(s, a, b, c, d);
    }
  }

  lemma SpelledIsAccepted(s: string, a: nat, b: nat, c: nat, d: nat)
    requires Spells(s, a, b, c, d)
    ensures FourAccepted(Split(s, '.'))
  {
    SpelledTokens(s, a, b, c, d);
    OctetIsNumeral(ToDecimal(a));
    OctetIsNumeral(ToDecimal(b));
    OctetIsNumeral(ToDecimal(c));
    OctetIsNumeral(ToDecimal(d));
  }

  lemma AcceptedIsSpelled(s: string, ts: seq<string>)
    requires ts == Split(s, '.') && FourAccepted(ts)
    ensures IsAddress(s)
  {
    JoinSplit(s, '.');
    var a, b, c, d := AcceptedJoin(ts);
    FinalDot(s);
    assert Spells(s, a, b, c, d);
  }

  lemma FinalDot(s: string)
    ensures s == WithoutFinal(s, '.') || s == WithoutFinal(s, '.') + "."
  {
    if s != "" && s[|s| - 1] == '.' {
      assert s == s[..|s| - 1] + ".";
    }
  }

  lemma AcceptedJoin(ts: seq<string>) returns (a: nat, b: nat, c: nat, d: nat)
    requires FourAccepted(ts)
    ensures a <= 255 && b <= 255 && c <= 255 && d <= 255
    ensures Join(ts, '.') == Quad(a, b, c, d)
  {
    a := OctetNumber(ts[0]);
    b := OctetNumber(ts[1]);
    c := OctetNumber(ts[2]);
    d := OctetNumber(ts[3]);
    assert ts == [ToDecimal(a), ToDecimal(b), ToDecimal(c), ToDecimal(d)];
  }

  lemma OctetNumber(oct: string) returns (n: nat)
    requires OctetAccepted(oct)
    ensures n <= 255 && oct == ToDecimal(n)
  {
    CanonicalIsPrinted(oct);
    n := Value(oct);
  }

  lemma SpelledTokens(s: string, a: nat, b: nat, c: nat, d: nat)
    requires Spells(s, a, b, c, d)
    ensures Split(s, '.') == [ToDecimal(a), ToDecimal(b), ToDecimal(c), ToDecimal(d)]
  {
    DigitsHaveNoDot(a);
    DigitsHaveNoDot(b);
    DigitsHaveNoDot(c);
    DigitsHaveNoDot(d);
    SplitJoined([ToDecimal(a), ToDecimal(b), ToDecimal(c), ToDecimal(d)], '.');
  }

  /** An address spells one quadruple of octets. */
  lemma AddressIsUnique(s: string, a: nat, b: nat, c: nat, d: nat, a': nat, b': nat, c': nat, d': nat)
    requires Spells(s, a, b, c, d) && Spells(s, a', b', c', d')
    ensures a == a' && b == b' && c == c' && d == d'
  {
    SpelledTokens(s, a, b, c, d);
    SpelledTokens(s, a', b', c', d');
    var ts := Split(s, '.');
    assert Value(ts[0]) == a == a' && Value(ts[1]) == b == b';
    assert Value(ts[2]) == c == c' && Value(ts[3]) == d == d';
  }
}
