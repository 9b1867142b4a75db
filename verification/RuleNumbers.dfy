/**
 Which texts are read as numbers, prefixes, targets and port ranges: all of them, and no others.
 */
module RuleNumbers {
  import opened Net
  import opened RuleModel
  import opened RuleSyntax
  import opened RuleText

  // ---------------------------------------------------------------------------
  // Numbers

  function Zeros(k: nat): (s: string)
    ensures |s| == k && All(s, IsDigit)
  {
    seq(k, _ => '0')
  }

  /** The decimal form of `n`, with any number of zeros in front. */
  ghost predicate Spells(s: string, n: nat) {
    exists k: nat :: s == Zeros(k) + Decimal(n)
  }

  lemma ValueSnoc(s: string, c: char)
    requires All(s, IsDigit) && IsDigit(c)
    ensures All(s + [c], IsDigit) && Value(s + [c]) == 10 * Value(s) + DigitValue(c)
  {
    assert (s + [c])[..|s|] == s;
  }

  lemma {:induction false} ZerosAddNothing(k: nat, s: string)
    requires All(s, IsDigit)
    ensures All(Zeros(k) + s, IsDigit) && Value(Zeros(k) + s) == Value(s)
    decreases |s|, k
  {
    if s != "" {
      var t, c := s[..|s| - 1], s[|s| - 1];
      ZerosAddNothing(k, t);
      ValueSnoc(Zeros(k) + t, c);
      assert Zeros(k) + s == (Zeros(k) + t) + [c];
    } else if k > 0 {
      ZerosAddNothing(k - 1, "");
      ValueSnoc(Zeros(k - 1), '0');
      assert Zeros(k) + "" == Zeros(k) && Zeros(k - 1) + "" == Zeros(k - 1) && Zeros(k) == Zeros(k - 1) + ['0'];
    } else {
      assert Zeros(0) + "" == "";
    }
  }

  lemma CharOfDigit(c: char)
    requires IsDigit(c)
    ensures DigitChar(DigitValue(c)) == c
  {
  }

  lemma DecimalSnoc(n: nat, d: nat)
    requires 0 < n && d < 10
    ensures Decimal(10 * n + d) == Decimal(n) + [DigitChar(d)]
  {
    assert (10 * n + d) / 10 == n && (10 * n + d) % 10 == d;
  }

  lemma {:induction false} DigitsSpell(s: string)
    requires IsDigits(s)
    ensures Spells(s, Value(s))
  {
    var t, c := s[..|s| - 1], s[|s| - 1];
    assert s == t + [c];
    CharOfDigit(c);
    if t == "" {
      assert Value(s) == DigitValue(c);
      assert s == Zeros(0) + Decimal(Value(s));
    } else {
      DigitsSpell(t);
      var k: nat :| t == Zeros(k) + Decimal(Value(t));
      OneDigitMore(t, c, k);
    }
  }

  lemma OneDigitMore(t: string, c: char, k: nat)
    requires IsDigits(t) && IsDigit(c) && t == Zeros(k) + Decimal(Value(t))
    ensures IsDigits(t + [c]) && Spells(t + [c], Value(t + [c]))
  {
    ValueSnoc(t, c);
    CharOfDigit(c);
    if Value(t) == 0 {
      AfterZeros(t, c, k);
    } else {
      DecimalSnoc(Value(t), DigitValue(c));
      MoveLast(Zeros(k), Decimal(Value(t)), c);
      assert t + [c] == Zeros(k) + Decimal(Value(t + [c]));
    }
  }

  lemma MoveLast(a: string, b: string, c: char)
    ensures (a + b) + [c] == a + (b + [c])
  {
  }

  lemma AfterZeros(t: string, c: char, k: nat)
    requires IsDigit(c) && t == Zeros(k) + Decimal(0)
    ensures Spells(t + [c], DigitValue(c))
  {
    CharOfDigit(c);
    assert Decimal(0) == "0" && Decimal(DigitValue(c)) == [c];
    assert Zeros(k + 1) == Zeros(k) + "0";
    assert t + [c] == Zeros(k + 1) + Decimal(DigitValue(c));
  }

  /** Digits have exactly the value they spell. */
  lemma SpellsExactly(s: string, n: nat)
    ensures Spells(s, n) <==> IsDigits(s) && Value(s) == n
  {
    if k: nat :| s == Zeros(k) + Decimal(n) {
      ZerosAddNothing(k, Decimal(n));
      ValueOfDecimal(n);
    }
    if IsDigits(s) {
      DigitsSpell(s);
    }
  }

  // ---------------------------------------------------------------------------
  // Prefixes

  /** One to `maxDigits` digits whose value is below `limit`. */
  predicate IsNumber(s: string, maxDigits: nat, limit: nat) {
    IsDigits(s) && |s| <= maxDigits && Value(s) < limit
  }

  lemma ReadDigits(digits: string, rest: string, maxDigits: nat, limit: nat)
    requires IsNumber(digits, maxDigits, limit) && StopsAt(rest, IsDigit)
    ensures ReadNumber(digits + rest, maxDigits, limit) == Some((Value(digits), rest))
  {
    SpanOfRun(digits, rest, IsDigit);
    assert (digits + rest)[..|digits|] == digits && (digits + rest)[|digits|..] == rest;
  }

  lemma DigitsRead(s: string, maxDigits: nat, limit: nat) returns (digits: string)
    requires ReadNumber(s, maxDigits, limit).Some?
    ensures IsNumber(digits, maxDigits, limit) && s == digits + ReadNumber(s, maxDigits, limit).value.1
    ensures Value(digits) == ReadNumber(s, maxDigits, limit).value.0
  {
    digits := s[..Span(s, IsDigit)];
  }

  lemma ReadOctetDigits(digits: string, separator: string, rest: string)
    requires IsNumber(digits, 3, 256) && separator != "" && !IsDigit(separator[0])
    ensures ReadOctet(digits + (separator + rest), separator) == Some((Value(digits), rest))
  {
    assert (separator + rest)[0] == separator[0];
    ReadDigits(digits, separator + rest, 3, 256);
    TokenComplete(separator, rest);
  }

  lemma OctetDigits(s: string, separator: string) returns (digits: string)
    requires ReadOctet(s, separator).Some?
    ensures IsNumber(digits, 3, 256) && s == digits + (separator + ReadOctet(s, separator).value.1)
    ensures Value(digits) == ReadOctet(s, separator).value.0
  {
    digits := DigitsRead(s, 3, 256);
    TokenSound(ReadNumber(s, 3, 256).value.1, separator);
  }

  /** The digits of four octets and a length. */
  datatype Pieces = Pieces(a: string, b: string, c: string, d: string, len: string) {
    predicate Valid() {
      IsNumber(a, 3, 256) && IsNumber(b, 3, 256) && IsNumber(c, 3, 256) && IsNumber(d, 3, 256) && IsNumber(len, 2, 33)
    }

    /** Dots between the octets, and a slash before the length. */
    function Text(): string {
      a + ("." + (b + ("." + (c + ("." + (d + ("/" + len)))))))
    }

    function Denotes(): Prefix
      requires Valid()
    {
      Prefix(JoinAddress(JoinOctets(Value(a), Value(b)), JoinOctets(Value(c), Value(d))), Value(len))
    }
  }

  /** The octets from the high end. */
  lemma DenotesMeans(pieces: Pieces)
    requires pieces.Valid()
    ensures pieces.Denotes().address ==
            0x100_0000 * Value(pieces.a) + 0x1_0000 * Value(pieces.b) + 0x100 * Value(pieces.c) + Value(pieces.d)
    ensures pieces.Denotes().len == Value(pieces.len)
  {
  }

  lemma ReadPairDigits(a: string, b: string, separator: string, rest: string)
    requires IsNumber(a, 3, 256) && IsNumber(b, 3, 256) && separator != "" && !IsDigit(separator[0])
    ensures ReadPair(a + ("." + (b + (separator + rest))), separator) == Some((JoinOctets(Value(a), Value(b)), rest))
  {
    var s1 := b + (separator + rest);
    assert ReadOctet(a + ("." + s1), ".") == Some((Value(a), s1)) by { ReadOctetDigits(a, ".", s1); }
    assert ReadOctet(s1, separator) == Some((Value(b), rest)) by { ReadOctetDigits(b, separator, rest); }
    PairFrom(a + ("." + s1), separator, Value(a), Value(b), s1, rest);
  }

  lemma PairFrom(s: string, separator: string, high: nat, low: nat, s1: string, rest: string)
    requires high < 256 && low < 256
    requires ReadOctet(s, ".") == Some((high, s1)) && ReadOctet(s1, separator) == Some((low, rest))
    ensures ReadPair(s, separator) == Some((JoinOctets(high, low), rest))
  {
  }

  lemma PairDigits(s: string, separator: string) returns (a: string, b: string)
    requires ReadPair(s, separator).Some?
    ensures IsNumber(a, 3, 256) && IsNumber(b, 3, 256)
    ensures s == a + ("." + (b + (separator + ReadPair(s, separator).value.1)))
    ensures ReadPair(s, separator).value.0 == JoinOctets(Value(a), Value(b))
  {
    a := OctetDigits(s, ".");
    b := OctetDigits(ReadOctet(s, ".").value.1, separator);
  }

  lemma ReadLenDigits(len: string)
    requires IsNumber(len, 2, 33)
    ensures ReadLen(len) == Some(Value(len))
  {
    ReadDigits(len, "", 2, 33);
    assert len + "" == len;
  }

  /** Every such text is read as the prefix it denotes. */
  lemma PrefixComplete(pieces: Pieces)
    requires pieces.Valid()
    ensures PrefixValue(pieces.Text()) == Some(pieces.Denotes())
  {
    var Pieces(a, b, c, d, len) := pieces;
    var s1 := c + ("." + (d + ("/" + len)));
    var high, low := JoinOctets(Value(a), Value(b)), JoinOctets(Value(c), Value(d));
    assert ReadPair(pieces.Text(), ".") == Some((high, s1)) by { ReadPairDigits(a, b, ".", s1); }
    assert ReadPair(s1, "/") == Some((low, len)) by { ReadPairDigits(c, d, "/", len); }
    assert ReadLen(len) == Some(Value(len)) by { ReadLenDigits(len); }
    PrefixFrom(pieces.Text(), high, s1, low, len, Value(len));
  }

  lemma PrefixFrom(s: string, high: Port, s1: string, low: Port, s2: string, len: PrefixLen)
    requires ReadPair(s, ".") == Some((high, s1)) && ReadPair(s1, "/") == Some((low, s2)) && ReadLen(s2) == Some(len)
    ensures PrefixValue(s) == Some(Prefix(JoinAddress(high, low), len))
  {
  }

  lemma PrefixParts(s: string) returns (s1: string, s2: string)
    requires PrefixValue(s).Some?
    ensures ReadPair(s, ".").Some? && s1 == ReadPair(s, ".").value.1
    ensures ReadPair(s1, "/").Some? && s2 == ReadPair(s1, "/").value.1
    ensures ReadLen(s2).Some?
    ensures PrefixValue(s).value ==
            Prefix(JoinAddress(ReadPair(s, ".").value.0, ReadPair(s1, "/").value.0), ReadLen(s2).value)
  {
    s1 := ReadPair(s, ".").value.1;
    s2 := ReadPair(s1, "/").value.1;
  }

  lemma LenDigits(s: string)
    requires ReadLen(s).Some?
    ensures IsNumber(s, 2, 33) && ReadLen(s) == Some(Value(s))
  {
    var digits := DigitsRead(s, 2, 33);
    assert digits + "" == digits;
  }

  lemma Assembled(s: string, a: string, b: string, s1: string, c: string, d: string, s2: string)
    requires s == a + ("." + (b + ("." + s1))) && s1 == c + ("." + (d + ("/" + s2)))
    ensures Pieces(a, b, c, d, s2).Text() == s
  {
  }

  /** And no other text is read as a prefix. */
  lemma PrefixSound(s: string) returns (pieces: Pieces)
    requires PrefixValue(s).Some?
    ensures pieces.Valid() && pieces.Text() == s && PrefixValue(s) == Some(pieces.Denotes())
  {
    var s1, s2 := PrefixParts(s);
    var a, b := PairDigits(s, ".");
    var c, d := PairDigits(s1, "/");
    LenDigits(s2);
    Assembled(s, a, b, s1, c, d, s2);
    pieces := Pieces(a, b, c, d, s2);
  }

  ghost predicate IsPrefixText(s: string, p: Prefix) {
    exists pieces: Pieces :: pieces.Valid() && pieces.Text() == s && pieces.Denotes() == p
  }

  /** Exactly four octets with dots between them, a slash and a length are read as a prefix. */
  lemma PrefixExactly(s: string, p: Prefix)
    ensures PrefixValue(s) == Some(p) <==> IsPrefixText(s, p)
  {
    if PrefixValue(s) == Some(p) {
      var pieces := PrefixSound(s);
    }
    if pieces: Pieces :| pieces.Valid() && pieces.Text() == s && pieces.Denotes() == p {
      PrefixComplete(pieces);
    }
  }

  /** A target is one of the two names or a prefix, and nothing else is read as one. */
  lemma TargetExactly(s: string, target: Target)
    ensures TargetValue(s) == Some(target) <==>
            match target
            case ToHost => s == "@host"
            case ToPeers => s == "@peers"
            case ToPrefix(p) => s != "@host" && s != "@peers" && IsPrefixText(s, p)
  {
    if target.ToPrefix? {
      PrefixExactly(s, target.prefix);
    }
  }

  // ---------------------------------------------------------------------------
  // Port ranges

  lemma PortExactly(s: string, port: Port)
    ensures PortValue(s) == Some(port) <==> Spells(s, port)
  {
    SpellsExactly(s, port);
  }

  lemma ColonsApart(s: string)
    ensures
      var k := ColonIndex(s);
      k < |s| ==> s[k] == ':' && s == s[..k] + (":" + s[k + 1..])
  {
  }

  ghost predicate IsPairOfPorts(s: string, r: PortRange) {
    exists a, b :: Spells(a, r.start) && Spells(b, r.end) && s == a + (":" + b)
  }

  /** One port, or two with a colon between them, not zero and in order, and nothing else. */
  lemma RangeExactly(s: string, r: PortRange)
    ensures RangeValue(s) == Some(r) <==> (Spells(s, r.start) && r.start == r.end) || IsPairOfPorts(s, r)
  {
    if RangeValue(s) == Some(r) {
      RangeSound(s, r);
    }
    if Spells(s, r.start) && r.start == r.end {
      OnePort(s, r);
    }
    if IsPairOfPorts(s, r) {
      TwoPorts(s, r);
    }
  }

  lemma OnePort(s: string, r: PortRange)
    requires Spells(s, r.start) && r.start == r.end
    ensures RangeValue(s) == Some(r)
  {
    PortExactly(s, r.start);
    DigitsAreNotColons(s);
    SpanOfRun(s, "", c => c != ':');
    assert s + "" == s && s[..|s|] == s;
  }

  lemma TwoPorts(s: string, r: PortRange)
    requires IsPairOfPorts(s, r)
    ensures RangeValue(s) == Some(r)
  {
    var a, b :| Spells(a, r.start) && Spells(b, r.end) && s == a + (":" + b);
    PortExactly(a, r.start);
    PortExactly(b, r.end);
    RangeFrom(a, b, r);
  }

  lemma RangeFrom(a: string, b: string, r: PortRange)
    requires PortValue(a) == Some(r.start) && PortValue(b) == Some(r.end)
    ensures RangeValue(a + (":" + b)) == Some(r)
  {
    PortPairSplits(a, b);
  }

  lemma RangeSound(s: string, r: PortRange)
    requires RangeValue(s) == Some(r)
    ensures (Spells(s, r.start) && r.start == r.end) || IsPairOfPorts(s, r)
  {
    var k := ColonIndex(s);
    RangeParts(s, r);
    PortExactly(s[..k], r.start);
    if k < |s| {
      PortExactly(s[k + 1..], r.end);
      ColonsApart(s);
      assert Spells(s[..k], r.start) && Spells(s[k + 1..], r.end);
    } else {
      assert s[..k] == s;
    }
  }

  lemma RangeParts(s: string, r: PortRange)
    requires RangeValue(s) == Some(r)
    ensures
      var k := ColonIndex(s);
      && PortValue(s[..k]) == Some(r.start)
      && (k < |s| ==> PortValue(s[k + 1..]) == Some(r.end))
      && (k == |s| ==> s[..k] == s && r.start == r.end)
  {
    assert s[..|s|] == s;
  }
}
