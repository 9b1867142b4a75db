/**
 The rule grammar: a parsing-expression parser that turns text into its fields, and
 the declarative grammar it implements. The parser accepts exactly the texts the
 grammar derives, and returns the one derivation there is.
 */
module RuleSyntax {
  import opened Net
  import opened RuleModel

  // ---------------------------------------------------------------------------
  // Characters and spans

  predicate IsSpace(c: char) {
    c == ' '
  }

  predicate IsDigit(c: char) {
    '0' <= c <= '9'
  }

  predicate IsTargetChar(c: char) {
    IsDigit(c) || c == '.' || c == '/'
  }

  predicate All(s: string, p: char -> bool) {
    forall i :: 0 <= i < |s| ==> p(s[i])
  }

  /** A text at which a run of `p` characters stops. */
  predicate StopsAt(s: string, p: char -> bool) {
    s == "" || !p(s[0])
  }

  /** The length of the longest prefix made of `p` characters. */
  function Span(s: string, p: char -> bool): (n: nat)
    ensures n <= |s|
    ensures All(s[..n], p)
    ensures StopsAt(s[n..], p)
  {
    if s == "" || !p(s[0]) then 0
    else
      var n := 1 + Span(s[1..], p);
      assert s[..n] == [s[0]] + s[1..][..n - 1];
      n
  }

  lemma {:induction false} SpanOfRun(run: string, rest: string, p: char -> bool)
    requires All(run, p) && StopsAt(rest, p)
    ensures Span(run + rest, p) == |run|
  {
    if run == "" {
      assert run + rest == rest;
    } else {
      assert (run + rest)[1..] == run[1..] + rest;
      SpanOfRun(run[1..], rest, p);
    }
  }

  function Spaces(n: nat): (s: string)
    ensures |s| == n
    ensures All(s, IsSpace)
  {
    seq(n, _ => ' ')
  }

  lemma Concat(a: string, b: string, c: string)
    ensures (a + b) + c == a + (b + c)
  {
  }

  // ---------------------------------------------------------------------------
  // The grammar

  function DirectionText(d: Direction): string {
    match d
    case In => "in"
    case Out => "out"
  }

  function ProtocolText(p: Protocol): string {
    match p
    case Tcp => "tcp"
    case Udp => "udp"
    case Icmp => "icmp"
  }

  predicate IsTargetText(s: string) {
    s == "@host" || s == "@peers" || (s != "" && All(s, IsTargetChar))
  }

  predicate IsDigits(s: string) {
    s != "" && All(s, IsDigit)
  }

  /** One or more digits, optionally followed by a colon and one or more digits. */
  predicate IsPortText(s: string) {
    || IsDigits(s)
    || exists k :: 0 <= k < |s| && s[k] == ':' && IsDigits(s[..k]) && IsDigits(s[k + 1..])
  }

  datatype ProtocolField = ProtocolField(before: nat, after: nat, protocol: Protocol) {
    predicate Valid() {
      1 <= before && 1 <= after
    }

    function Text(): string {
      Spaces(before) + ("proto" + (Spaces(after) + ProtocolText(protocol)))
    }
  }

  datatype TargetField = TargetField(before: nat, text: string) {
    predicate Valid() {
      1 <= before && IsTargetText(text)
    }

    function Text(): string {
      Spaces(before) + text
    }
  }

  datatype PortField = PortField(before: nat, after: nat, text: string) {
    predicate Valid() {
      1 <= before && 1 <= after && IsPortText(text)
    }

    function Text(): string {
      Spaces(before) + ("port" + (Spaces(after) + text))
    }
  }

  function ProtocolFieldText(field: Option<ProtocolField>): string {
    if field.Some? then field.value.Text() else ""
  }

  function TargetFieldText(field: Option<TargetField>): string {
    if field.Some? then field.value.Text() else ""
  }

  function PortFieldText(field: Option<PortField>): string {
    if field.Some? then field.value.Text() else ""
  }

  /** A derivation of the grammar. */
  datatype Syntax =
    | Bare(text: string)
    | Directed(direction: Direction, protocol: Option<ProtocolField>, target: Option<TargetField>,
               port: Option<PortField>)
  {
    predicate Valid() {
      match this
      case Bare(text) => IsTargetText(text)
      case Directed(_, protocol, target, port) =>
        && (protocol.Some? ==> protocol.value.Valid())
        && (target.Some? ==> target.value.Valid())
        && (port.Some? ==> port.value.Valid())
    }

    function Text(): string {
      match this
      case Bare(text) => text
      case Directed(direction, protocol, target, port) =>
        DirectionText(direction) + (ProtocolFieldText(protocol) + (TargetFieldText(target) + PortFieldText(port)))
    }
  }

  // ---------------------------------------------------------------------------
  // The parser

  /** One or more spaces. */
  function SkipSpaces(s: string): Option<(nat, string)> {
    var n := Span(s, IsSpace);
    if n == 0 then None else Some((n, s[n..]))
  }

  function Token(s: string, token: string): Option<string> {
    if token <= s then Some(s[|token|..]) else None
  }

  /** Spaces, a keyword and spaces again. */
  function Keyword(s: string, keyword: string): Option<(nat, nat, string)> {
    match SkipSpaces(s)
    case None => None
    case Some((n, s1)) =>
      match Token(s1, keyword)
      case None => None
      case Some(s2) =>
        match SkipSpaces(s2)
        case None => None
        case Some((m, s3)) => Some((n, m, s3))
  }

  function ParseProtocolName(s: string): Option<(Protocol, string)> {
    if Token(s, "tcp").Some? then Some((Tcp, Token(s, "tcp").value))
    else if Token(s, "udp").Some? then Some((Udp, Token(s, "udp").value))
    else if Token(s, "icmp").Some? then Some((Icmp, Token(s, "icmp").value))
    else None
  }

  function ParseProtocol(s: string): Option<(ProtocolField, string)> {
    match Keyword(s, "proto")
    case None => None
    case Some((n, m, s1)) =>
      match ParseProtocolName(s1)
      case None => None
      case Some((p, rest)) => Some((ProtocolField(n, m, p), rest))
  }

  function ParseTargetText(s: string): Option<(string, string)> {
    if Token(s, "@host").Some? then Some(("@host", Token(s, "@host").value))
    else if Token(s, "@peers").Some? then Some(("@peers", Token(s, "@peers").value))
    else
      var n := Span(s, IsTargetChar);
      if n == 0 then None else Some((s[..n], s[n..]))
  }

  function ParseTarget(s: string): Option<(TargetField, string)> {
    match SkipSpaces(s)
    case None => None
    case Some((n, s1)) =>
      match ParseTargetText(s1)
      case None => None
      case Some((text, rest)) => Some((TargetField(n, text), rest))
  }

  function ParsePortText(s: string): Option<(string, string)> {
    var n := Span(s, IsDigit);
    if n == 0 then None
    else if n < |s| && s[n] == ':' && Span(s[n + 1..], IsDigit) > 0 then
      var end := n + 1 + Span(s[n + 1..], IsDigit);
      Some((s[..end], s[end..]))
    else Some((s[..n], s[n..]))
  }

  function ParsePort(s: string): Option<(PortField, string)> {
    match Keyword(s, "port")
    case None => None
    case Some((n, m, s1)) =>
      match ParsePortText(s1)
      case None => None
      case Some((text, rest)) => Some((PortField(n, m, text), rest))
  }

  function ParseDirection(s: string): Option<(Direction, string)> {
    if Token(s, "in").Some? then Some((In, Token(s, "in").value))
    else if Token(s, "out").Some? then Some((Out, Token(s, "out").value))
    else None
  }

  /** An optional field: a failed attempt consumes nothing. */
  function Optional<T>(parsed: Option<(T, string)>, s: string): (Option<T>, string) {
    match parsed
    case None => (None, s)
    case Some((t, rest)) => (Some(t), rest)
  }

  function ParseDirected(s: string): Option<(Syntax, string)> {
    match ParseDirection(s)
    case None => None
    case Some((d, s1)) =>
      var (protocol, s2) := Optional(ParseProtocol(s1), s1);
      var (target, s3) := Optional(ParseTarget(s2), s2);
      var (port, s4) := Optional(ParsePort(s3), s3);
      Some((Directed(d, protocol, target, port), s4))
  }

  /** The ordered choice of a directed rule or a bare target, up to the end of the input. */
  function ParseSyntax(s: string): Option<Syntax> {
    match ParseDirected(s)
    case Some((syntax, rest)) => if rest == "" then Some(syntax) else None
    case None =>
      match ParseTargetText(s)
      case Some((text, rest)) => if rest == "" then Some(Bare(text)) else None
      case None => None
  }

  // ---------------------------------------------------------------------------
  // Soundness: what the parser returns is a derivation of what it consumed

  lemma SkipSpacesSound(s: string)
    ensures SkipSpaces(s).Some? ==> var (n, rest) := SkipSpaces(s).value; 1 <= n && s == Spaces(n) + rest
  {
    var n := Span(s, IsSpace);
    assert s[..n] == Spaces(n);
  }

  lemma TokenSound(s: string, token: string)
    ensures Token(s, token).Some? ==> s == token + Token(s, token).value
  {
  }

  lemma KeywordSound(s: string, keyword: string)
    ensures Keyword(s, keyword).Some? ==>
              var (n, m, rest) := Keyword(s, keyword).value;
              1 <= n && 1 <= m && s == Spaces(n) + (keyword + (Spaces(m) + rest))
  {
    SkipSpacesSound(s);
    if SkipSpaces(s).Some? {
      var (_, s1) := SkipSpaces(s).value;
      TokenSound(s1, keyword);
      if Token(s1, keyword).Some? {
        SkipSpacesSound(Token(s1, keyword).value);
      }
    }
  }

  lemma ProtocolNameSound(s: string)
    ensures ParseProtocolName(s).Some? ==> var (p, rest) := ParseProtocolName(s).value; s == ProtocolText(p) + rest
  {
    TokenSound(s, "tcp");
    TokenSound(s, "udp");
    TokenSound(s, "icmp");
  }

  lemma FieldConcat(a: string, b: string, c: string, d: string, rest: string)
    ensures (a + (b + (c + d))) + rest == a + (b + (c + (d + rest)))
  {
    Concat(a, b + (c + d), rest);
    Concat(b, c + d, rest);
    Concat(c, d, rest);
  }

  lemma ProtocolSound(s: string)
    ensures ParseProtocol(s).Some? ==>
              var (field, rest) := ParseProtocol(s).value;
              field.Valid() && s == field.Text() + rest
  {
    KeywordSound(s, "proto");
    if ParseProtocol(s).Some? {
      var (n, m, s1) := Keyword(s, "proto").value;
      ProtocolNameSound(s1);
      var (p, rest) := ParseProtocolName(s1).value;
      FieldConcat(Spaces(n), "proto", Spaces(m), ProtocolText(p), rest);
    }
  }

  lemma TargetTextSound(s: string)
    ensures ParseTargetText(s).Some? ==>
              var (text, rest) := ParseTargetText(s).value;
              IsTargetText(text) && s == text + rest
  {
    TokenSound(s, "@host");
    TokenSound(s, "@peers");
  }

  lemma TargetSound(s: string)
    ensures ParseTarget(s).Some? ==>
              var (field, rest) := ParseTarget(s).value;
              field.Valid() && s == field.Text() + rest
  {
    SkipSpacesSound(s);
    if ParseTarget(s).Some? {
      var (n, s1) := SkipSpaces(s).value;
      TargetTextSound(s1);
      var (text, rest) := ParseTargetText(s1).value;
      Concat(Spaces(n), text, rest);
    }
  }

  lemma PortTextSound(s: string)
    ensures ParsePortText(s).Some? ==>
              var (text, rest) := ParsePortText(s).value;
              IsPortText(text) && s == text + rest
  {
    var n := Span(s, IsDigit);
    if n > 0 && n < |s| && s[n] == ':' && Span(s[n + 1..], IsDigit) > 0 {
      var m := Span(s[n + 1..], IsDigit);
      var text := s[..n + 1 + m];
      assert text[n] == ':' && text[..n] == s[..n] && text[n + 1..] == s[n + 1..][..m];
    }
  }

  lemma PortSound(s: string)
    ensures ParsePort(s).Some? ==>
              var (field, rest) := ParsePort(s).value;
              field.Valid() && s == field.Text() + rest
  {
    KeywordSound(s, "port");
    if ParsePort(s).Some? {
      var (n, m, s1) := Keyword(s, "port").value;
      PortTextSound(s1);
      var (text, rest) := ParsePortText(s1).value;
      FieldConcat(Spaces(n), "port", Spaces(m), text, rest);
    }
  }

  lemma DirectionSound(s: string)
    ensures ParseDirection(s).Some? ==> var (d, rest) := ParseDirection(s).value; s == DirectionText(d) + rest
  {
    TokenSound(s, "in");
    TokenSound(s, "out");
  }

  /** The optional fields together consume exactly their text. */
  lemma FieldsSound(s: string)
    ensures
      var (protocol, s2) := Optional(ParseProtocol(s), s);
      var (target, s3) := Optional(ParseTarget(s2), s2);
      var (port, s4) := Optional(ParsePort(s3), s3);
      s == ProtocolFieldText(protocol) + (TargetFieldText(target) + (PortFieldText(port) + s4))
  {
    var (protocol, s2) := Optional(ParseProtocol(s), s);
    ProtocolSound(s);
    assert s == ProtocolFieldText(protocol) + s2;
    var (target, s3) := Optional(ParseTarget(s2), s2);
    TargetSound(s2);
    assert s2 == TargetFieldText(target) + s3;
    var (port, s4) := Optional(ParsePort(s3), s3);
    PortSound(s3);
    assert s3 == PortFieldText(port) + s4;
  }

  lemma FieldsValid(s: string)
    ensures
      var (protocol, s2) := Optional(ParseProtocol(s), s);
      var (target, s3) := Optional(ParseTarget(s2), s2);
      var (port, s4) := Optional(ParsePort(s3), s3);
      && (protocol.Some? ==> protocol.value.Valid())
      && (target.Some? ==> target.value.Valid())
      && (port.Some? ==> port.value.Valid())
  {
    var (protocol, s2) := Optional(ParseProtocol(s), s);
    ProtocolSound(s);
    var (target, s3) := Optional(ParseTarget(s2), s2);
    TargetSound(s2);
    PortSound(s3);
  }

  lemma DirectedSound(s: string)
    ensures ParseDirected(s).Some? ==>
              var (syntax, rest) := ParseDirected(s).value;
              syntax.Valid() && s == syntax.Text() + rest
  {
    DirectionSound(s);
    if ParseDirected(s).Some? {
      var (d, s1) := ParseDirection(s).value;
      var (syntax, rest) := ParseDirected(s).value;
      FieldsValid(s1);
      FieldsSound(s1);
      FieldConcat(DirectionText(d), ProtocolFieldText(syntax.protocol), TargetFieldText(syntax.target),
                  PortFieldText(syntax.port), rest);
    }
  }

  /** Everything the parser accepts is derived by the grammar. */
  lemma ParserIsSound(s: string)
    ensures ParseSyntax(s).Some? ==> ParseSyntax(s).value.Valid() && ParseSyntax(s).value.Text() == s
  {
    DirectedSound(s);
    TargetTextSound(s);
  }

  // ---------------------------------------------------------------------------
  // Completeness: every derivation is found

  lemma SkipSpacesComplete(n: nat, rest: string)
    requires 1 <= n && StopsAt(rest, IsSpace)
    ensures SkipSpaces(Spaces(n) + rest) == Some((n, rest))
  {
    SpanOfRun(Spaces(n), rest, IsSpace);
  }

  lemma TokenComplete(token: string, rest: string)
    ensures Token(token + rest, token) == Some(rest)
  {
  }

  lemma TokenFails(s: string, token: string)
    requires token != "" && (s == "" || s[0] != token[0])
    ensures Token(s, token).None?
  {
  }

  lemma KeywordComplete(n: nat, keyword: string, m: nat, rest: string)
    requires 1 <= n && 1 <= m && StopsAt(rest, IsSpace)
    requires keyword != "" && keyword[0] != ' '
    ensures Keyword(Spaces(n) + (keyword + (Spaces(m) + rest)), keyword) == Some((n, m, rest))
  {
    SkipSpacesComplete(n, keyword + (Spaces(m) + rest));
    TokenComplete(keyword, Spaces(m) + rest);
    SkipSpacesComplete(m, rest);
  }

  lemma KeywordFails(n: nat, keyword: string, rest: string)
    requires 1 <= n && StopsAt(rest, IsSpace) && Token(rest, keyword).None?
    ensures Keyword(Spaces(n) + rest, keyword).None?
  {
    SkipSpacesComplete(n, rest);
  }

  lemma ProtocolNameComplete(p: Protocol, rest: string)
    ensures ParseProtocolName(ProtocolText(p) + rest) == Some((p, rest))
  {
    var s := ProtocolText(p) + rest;
    TokenComplete(ProtocolText(p), rest);
    assert s[0] == ProtocolText(p)[0];
  }

  lemma ProtocolComplete(field: ProtocolField, rest: string)
    requires field.Valid()
    ensures ParseProtocol(field.Text() + rest) == Some((field, rest))
  {
    var name := ProtocolText(field.protocol);
    FieldConcat(Spaces(field.before), "proto", Spaces(field.after), name, rest);
    assert (name + rest)[0] == name[0];
    KeywordComplete(field.before, "proto", field.after, name + rest);
    ProtocolNameComplete(field.protocol, rest);
  }

  lemma TargetTextComplete(text: string, rest: string)
    requires IsTargetText(text) && StopsAt(rest, IsTargetChar)
    ensures ParseTargetText(text + rest) == Some((text, rest))
  {
    assert (text + rest)[0] == text[0];
    if text == "@host" {
      TokenComplete("@host", rest);
    } else if text == "@peers" {
      TokenComplete("@peers", rest);
      assert (text + rest)[1] == 'p';
    } else {
      assert IsTargetChar(text[0]);
      TokenFails(text + rest, "@host");
      TokenFails(text + rest, "@peers");
      SpanOfRun(text, rest, IsTargetChar);
    }
  }

  lemma TargetTextStart(text: string)
    requires IsTargetText(text)
    ensures text != "" && (text[0] == '@' || IsTargetChar(text[0]))
  {
  }

  lemma TargetComplete(field: TargetField, rest: string)
    requires field.Valid() && StopsAt(rest, IsTargetChar)
    ensures ParseTarget(field.Text() + rest) == Some((field, rest))
  {
    TargetTextStart(field.text);
    Concat(Spaces(field.before), field.text, rest);
    assert (field.text + rest)[0] == field.text[0];
    SkipSpacesComplete(field.before, field.text + rest);
    TargetTextComplete(field.text, rest);
  }

  lemma PortPairComplete(first: string, second: string)
    requires IsDigits(first) && IsDigits(second)
    ensures ParsePortText(first + (":" + second)) == Some((first + (":" + second), ""))
  {
    var s := first + (":" + second);
    SpanOfRun(first, ":" + second, IsDigit);
    assert s[|first|] == ':' && s[|first| + 1..] == second;
    SpanOfRun(second, "", IsDigit);
    assert second + "" == second;
    assert s[..|s|] == s && s[|s|..] == "";
  }

  lemma PortTextComplete(text: string)
    requires IsPortText(text)
    ensures ParsePortText(text) == Some((text, ""))
  {
    if IsDigits(text) {
      SpanOfRun(text, "", IsDigit);
      assert text + "" == text;
    } else {
      var k :| 0 <= k < |text| && text[k] == ':' && IsDigits(text[..k]) && IsDigits(text[k + 1..]);
      assert text == text[..k] + (":" + text[k + 1..]);
      PortPairComplete(text[..k], text[k + 1..]);
    }
  }

  lemma PortTextStart(text: string)
    requires IsPortText(text)
    ensures text != "" && IsDigit(text[0])
  {
    if !IsDigits(text) {
      var k :| 0 <= k < |text| && text[k] == ':' && IsDigits(text[..k]) && IsDigits(text[k + 1..]);
      assert text[..k][0] == text[0];
    }
  }

  lemma PortComplete(field: PortField)
    requires field.Valid()
    ensures ParsePort(field.Text()) == Some((field, ""))
  {
    PortTextStart(field.text);
    KeywordComplete(field.before, "port", field.after, field.text);
    PortTextComplete(field.text);
  }

  /** Without a protocol field, what follows the direction is not read as one. */
  lemma ProtocolAbsent(target: Option<TargetField>, port: Option<PortField>)
    requires target.Some? ==> target.value.Valid()
    requires port.Some? ==> port.value.Valid()
    ensures ParseProtocol(TargetFieldText(target) + PortFieldText(port)).None?
  {
    var s := TargetFieldText(target) + PortFieldText(port);
    if target.Some? {
      var TargetField(n, text) := target.value;
      TargetTextStart(text);
      Concat(Spaces(n), text, PortFieldText(port));
      var rest := text + PortFieldText(port);
      assert rest[0] == text[0];
      TokenFails(rest, "proto");
      KeywordFails(n, "proto", rest);
    } else if port.Some? {
      var PortField(n, m, text) := port.value;
      var rest := "port" + (Spaces(m) + text);
      assert s == Spaces(n) + rest;
      assert rest[1] == 'o';
      KeywordFails(n, "proto", rest);
    } else {
      assert s == "";
    }
  }

  lemma TargetAbsent(port: Option<PortField>)
    requires port.Some? ==> port.value.Valid()
    ensures ParseTarget(PortFieldText(port)).None?
  {
    if port.Some? {
      var PortField(n, m, text) := port.value;
      var rest := "port" + (Spaces(m) + text);
      assert rest[0] == 'p';
      SkipSpacesComplete(n, rest);
      TokenFails(rest, "@host");
      TokenFails(rest, "@peers");
    }
  }

  lemma PortStopsTarget(port: Option<PortField>)
    requires port.Some? ==> port.value.Valid()
    ensures StopsAt(PortFieldText(port), IsTargetChar)
  {
    if port.Some? {
      assert PortFieldText(port)[0] == Spaces(port.value.before)[0];
      assert IsSpace(Spaces(port.value.before)[0]);
    }
  }

  lemma DirectionComplete(d: Direction, rest: string)
    ensures ParseDirection(DirectionText(d) + rest) == Some((d, rest))
  {
    TokenComplete(DirectionText(d), rest);
    assert (DirectionText(d) + rest)[0] == DirectionText(d)[0];
  }

  lemma ProtocolFieldFound(protocol: Option<ProtocolField>, target: Option<TargetField>, port: Option<PortField>)
    requires protocol.Some? ==> protocol.value.Valid()
    requires target.Some? ==> target.value.Valid()
    requires port.Some? ==> port.value.Valid()
    ensures
      var rest := TargetFieldText(target) + PortFieldText(port);
      var s := ProtocolFieldText(protocol) + rest;
      Optional(ParseProtocol(s), s) == (protocol, rest)
  {
    var rest := TargetFieldText(target) + PortFieldText(port);
    if protocol.Some? {
      ProtocolComplete(protocol.value, rest);
    } else {
      assert "" + rest == rest;
      ProtocolAbsent(target, port);
    }
  }

  lemma TargetFieldFound(target: Option<TargetField>, port: Option<PortField>)
    requires target.Some? ==> target.value.Valid()
    requires port.Some? ==> port.value.Valid()
    ensures
      var s := TargetFieldText(target) + PortFieldText(port);
      Optional(ParseTarget(s), s) == (target, PortFieldText(port))
  {
    if target.Some? {
      PortStopsTarget(port);
      TargetComplete(target.value, PortFieldText(port));
    } else {
      assert "" + PortFieldText(port) == PortFieldText(port);
      TargetAbsent(port);
    }
  }

  lemma PortFieldFound(port: Option<PortField>)
    requires port.Some? ==> port.value.Valid()
    ensures Optional(ParsePort(PortFieldText(port)), PortFieldText(port)) == (port, "")
  {
    if port.Some? {
      PortComplete(port.value);
    }
  }

  lemma DirectedComplete(syntax: Syntax)
    requires syntax.Valid() && syntax.Directed?
    ensures ParseDirected(syntax.Text()) == Some((syntax, ""))
  {
    var Directed(d, protocol, target, port) := syntax;
    DirectionComplete(d, ProtocolFieldText(protocol) + (TargetFieldText(target) + PortFieldText(port)));
    ProtocolFieldFound(protocol, target, port);
    TargetFieldFound(target, port);
    PortFieldFound(port);
  }

  /** Every derivation of the grammar is found, and it is the only one of its text. */
  lemma ParserIsComplete(syntax: Syntax)
    requires syntax.Valid()
    ensures ParseSyntax(syntax.Text()) == Some(syntax)
  {
    match syntax {
      case Bare(text) =>
        TargetTextStart(text);
        TokenFails(text, "in");
        TokenFails(text, "out");
        assert text + "" == text;
        TargetTextComplete(text, "");
      case Directed(_, _, _, _) =>
        DirectedComplete(syntax);
    }
  }

  /** Two derivations of one text are the same derivation. */
  lemma GrammarIsUnambiguous(a: Syntax, b: Syntax)
    requires a.Valid() && b.Valid() && a.Text() == b.Text()
    ensures a == b
  {
    ParserIsComplete(a);
    ParserIsComplete(b);
  }
}
