/** Roundcube configuration: the PHP literal parser, the override scanner and the quoting of passwords. */
module Roundcube {
  import opened Bytes

  const NUL: byte := 0
  const TAB: byte := 9
  const LF: byte := 10
  const FF: byte := 12
  const CR: byte := 13
  const SPACE: byte := ' ' as int
  const DQUOTE: byte := '"' as int
  const HASH: byte := '#' as int
  const DOLLAR: byte := '$' as int
  const SQUOTE: byte := '\'' as int
  const STAR: byte := '*' as int
  const SLASH: byte := '/' as int
  const EQUALS: byte := '=' as int
  const LBRACKET: byte := '[' as int
  const BACKSLASH: byte := '\\' as int
  const RBRACKET: byte := ']' as int

  // ------------------------------------------------------------------ PHP literals

  predicate Forbidden(c: byte, quote: byte) {
    c == CR || c == LF || c == NUL || c == quote || (quote == DQUOTE && c == DOLLAR)
  }

  function Prepend(c: byte, rest: Option<Bytes>): Option<Bytes> {
    if rest.None? then None else Some([c] + rest.value)
  }

  /** The value of a literal's body, read from the left. */
  function ParseBody(body: Bytes, quote: byte): Option<Bytes> {
    if body == [] then Some([])
    else if Forbidden(body[0], quote) then None
    else if body[0] == BACKSLASH then
      if |body| < 2 then None
      else if body[1] == BACKSLASH || body[1] == quote then Prepend(body[1], ParseBody(body[2..], quote))
      else if quote == DQUOTE then None
      else Prepend(body[0], ParseBody(body[1..], quote))
    else Prepend(body[0], ParseBody(body[1..], quote))
  }

  predicate Quoted(raw: Bytes) {
    |raw| >= 2 && (raw[0] == SQUOTE || raw[0] == DQUOTE) && raw[|raw| - 1] == raw[0]
  }

  /** parseRoundcubePHPLiteral. */
  method ParseLiteral(raw: Bytes) returns (value: Option<Bytes>)
    ensures value == if Quoted(raw) then ParseBody(raw[1..|raw| - 1], raw[0]) else None
  {
    if !Quoted(raw) {
      return None;
    }
    var quote, body := raw[0], raw[1..|raw| - 1];
    var b: Bytes, i := [], 0;
    assert body[0..] == body && (ParseBody(body, quote).Some? ==> [] + ParseBody(body, quote).value == ParseBody(body, quote).value);
    while i < |body|
      invariant 0 <= i <= |body|
      invariant ParseBody(body, quote) == Continue(b, ParseBody(body[i..], quote))
    {
      var c := body[i];
      assert body[i..][1..] == body[i + 1..];
      ContinueStep(b, c, ParseBody(body[i + 1..], quote));
      if Forbidden(c, quote) {
        return None;
      }
      if c == BACKSLASH {
        if i + 1 >= |body| {
          return None;
        }
        var next := body[i + 1];
        assert body[i..][2..] == body[i + 2..];
        if next == BACKSLASH || next == quote {
          ContinueStep(b, next, ParseBody(body[i + 2..], quote));
          b, i := b + [next], i + 2;
          continue;
        }
        if quote == DQUOTE {
          return None;
        }
      }
      b, i := b + [c], i + 1;
    }
    assert body[i..] == [] && b + [] == b;
    value := Some(b);
  }

  ghost function Continue(b: Bytes, rest: Option<Bytes>): Option<Bytes> {
    if rest.None? then None else Some(b + rest.value)
  }

  lemma ContinueStep(b: Bytes, c: byte, rest: Option<Bytes>)
    ensures Continue(b, Prepend(c, rest)) == Continue(b + [c], rest)
  {
    if rest.Some? {
      ConcatAssociative(b, [c], rest.value);
    }
  }

  /** What a literal under this quote can hold. */
  ghost predicate Storable(s: Bytes, quote: byte) {
    CR !in s && LF !in s && NUL !in s && (quote == DQUOTE ==> DOLLAR !in s)
  }

  function EscapedByte(c: byte, quote: byte): Bytes {
    if c == BACKSLASH || c == quote then [BACKSLASH, c] else [c]
  }

  /** Backslashes and the quote escaped; with the double quote this is also the option-file form. */
  function Escape(s: Bytes, quote: byte): Bytes {
    if s == [] then [] else EscapedByte(s[0], quote) + Escape(s[1..], quote)
  }

  /** One escaped byte is read back, whatever follows it. */
  lemma ParseOne(c: byte, quote: byte, rest: Bytes)
    requires (quote == SQUOTE || quote == DQUOTE) && Storable([c], quote)
    ensures ParseBody(EscapedByte(c, quote) + rest, quote) == Prepend(c, ParseBody(rest, quote))
  {
    var text := EscapedByte(c, quote) + rest;
    if c == BACKSLASH || c == quote {
      assert text[0] == BACKSLASH && text[1] == c && text[2..] == rest;
    } else {
      assert text[0] == c && text[1..] == rest;
    }
  }

  lemma {:induction false} ParseEscaped(s: Bytes, quote: byte)
    requires (quote == SQUOTE || quote == DQUOTE) && Storable(s, quote)
    ensures ParseBody(Escape(s, quote), quote) == Some(s)
  {
    if s == [] {
    } else {
      ParseEscaped(s[1..], quote);
      assert forall c :: c in [s[0]] ==> c in s;
      ParseOne(s[0], quote, Escape(s[1..], quote));
      assert s == [s[0]] + s[1..];
    }
  }

  lemma {:induction false} ParsedIsStorable(body: Bytes, quote: byte)
    requires (quote == SQUOTE || quote == DQUOTE) && ParseBody(body, quote).Some?
    ensures Storable(ParseBody(body, quote).value, quote)
    decreases |body|
  {
    if body == [] {
    } else {
      if body[0] == BACKSLASH && (body[1] == BACKSLASH || body[1] == quote) {
        ParsedIsStorable(body[2..], quote);
      } else {
        ParsedIsStorable(body[1..], quote);
      }
    }
  }

  /** A string has a literal under a quote exactly when it is storable there, and its escaped form is one. */
  lemma LiteralRoundTrip(s: Bytes, quote: byte)
    requires quote == SQUOTE || quote == DQUOTE
    ensures Storable(s, quote) <==> exists body: Bytes :: ParseBody(body, quote) == Some(s)
    ensures Storable(s, quote) ==> ParseBody(Escape(s, quote), quote) == Some(s)
  {
    if Storable(s, quote) {
      ParseEscaped(s, quote);
    }
    forall body: Bytes | ParseBody(body, quote) == Some(s) ensures Storable(s, quote) {
      ParsedIsStorable(body, quote);
    }
  }

  // ------------------------------------------------------------------ the override scanner

  predicate IsSpace(c: byte) {
    c == TAB || c == LF || c == FF || c == CR || c == SPACE
  }

  function SkipSpace(data: Bytes, i: nat): (j: nat)
    requires i <= |data|
    ensures i <= j <= |data|
    decreases |data| - i
  {
    if i < |data| && IsSpace(data[i]) then SkipSpace(data, i + 1) else i
  }

  predicate HasAt(data: Bytes, i: nat, word: Bytes) {
    i + |word| <= |data| && data[i..i + |word|] == word
  }

  predicate ByteAt(data: Bytes, i: nat, c: byte) {
    i < |data| && data[i] == c
  }

  const CONFIG: Bytes := [DOLLAR, 'c' as int, 'o' as int, 'n' as int, 'f' as int, 'i' as int, 'g' as int]
  const DB_DSNW: Bytes := ['d' as int, 'b' as int, '_' as int, 'd' as int, 's' as int, 'n' as int, 'w' as int]

  /** `$config['db_dsnw'] =` at position i, with either quote and any white space between the tokens. */
  predicate AssignmentAt(data: Bytes, i: nat) {
    && ByteAt(data, i, DOLLAR) && HasAt(data, i, CONFIG)
    && var open := SkipSpace(data, i + |CONFIG|);
    && ByteAt(data, open, LBRACKET)
    && var name := SkipSpace(data, open + 1);
    && (HasAt(data, name, [SQUOTE] + DB_DSNW + [SQUOTE]) || HasAt(data, name, [DQUOTE] + DB_DSNW + [DQUOTE]))
    && var close := SkipSpace(data, name + |DB_DSNW| + 2);
    && ByteAt(data, close, RBRACKET)
    && ByteAt(data, SkipSpace(data, close + 1), EQUALS)
  }

  /** The modes of a PHP lexer that reads one byte at a time. */
  datatype Mode = Code | Line | Opening | Block | Closing | Str(quote: byte) | Escaped(quote: byte)

  /** The mode after reading c, seeing the byte that follows it. */
  function After(mode: Mode, c: byte, next: Option<byte>): Mode {
    match mode
    case Code =>
      if c == HASH || (c == SLASH && next == Some(SLASH)) then Line
      else if c == SLASH && next == Some(STAR) then Opening
      else if c == SQUOTE || c == DQUOTE then Str(c)
      else Code
    case Line => if c == LF then Code else Line
    case Opening => Block
    case Block => if c == STAR && next == Some(SLASH) then Closing else Block
    case Closing => Code
    case Str(quote) => if c == BACKSLASH then Escaped(quote) else if c == quote then Code else Str(quote)
    case Escaped(quote) => Str(quote)
  }

  /** The mode in which the lexer reads byte i. */
  function ModeAt(data: Bytes, i: nat): Mode
    requires i <= |data|
  {
    if i == 0 then Code
    else After(ModeAt(data, i - 1), data[i - 1], if i < |data| then Some(data[i]) else None)
  }

  /** The assignment occurs as code, not inside a comment or a string. */
  ghost predicate Overridden(data: Bytes) {
    exists i :: 0 <= i < |data| && ModeAt(data, i) == Code && AssignmentAt(data, i)
  }

  /** No code position before i holds the assignment. */
  ghost predicate ClearBefore(data: Bytes, i: int) {
    forall k :: 0 <= k < i && k < |data| && ModeAt(data, k) == Code ==> !AssignmentAt(data, k)
  }

  /** Nothing strictly between `start` and i is read as code. */
  ghost predicate Skipped(data: Bytes, start: nat, i: nat) {
    forall k :: start < k < i && k < |data| ==> ModeAt(data, k) != Code
  }

  lemma ClearSkip(data: Bytes, start: nat, i: nat)
    requires start < |data| && data[start] != DOLLAR && ClearBefore(data, start) && Skipped(data, start, i)
    ensures ClearBefore(data, i)
  {
  }

  lemma Step(data: Bytes, i: nat)
    requires i < |data|
    ensures ModeAt(data, i + 1) ==
      After(ModeAt(data, i), data[i], if i + 1 < |data| then Some(data[i + 1]) else None)
  {
  }

  /** The scanner stands at code, or at the line feed that ends a line comment. */
  predicate AtCode(data: Bytes, i: nat) {
    i < |data| ==> ModeAt(data, i) == Code || (ModeAt(data, i) == Line && data[i] == LF)
  }

  /** Neither a comment nor a string starts here. */
  predicate PlainAt(data: Bytes, i: nat)
    requires i < |data|
  {
    data[i] != HASH && data[i] != SQUOTE && data[i] != DQUOTE
    && (data[i] == SLASH && i + 1 < |data| ==> data[i + 1] != SLASH && data[i + 1] != STAR)
  }

  /** Past one byte of code that is no assignment. */
  lemma StepPlain(data: Bytes, i: nat)
    requires i < |data| && AtCode(data, i) && PlainAt(data, i) && ClearBefore(data, i) && !AssignmentAt(data, i)
    ensures AtCode(data, i + 1) && ClearBefore(data, i + 1)
  {
    Step(data, i);
  }

  lemma NotAssignment(data: Bytes, i: nat)
    requires i < |data| && data[i] != DOLLAR
    ensures !AssignmentAt(data, i)
  {
  }

  /** checkRoundcubeConfigOverride's scanner, which jumps over comments and strings. */
  method ScanOverride(data: Bytes) returns (found: bool)
    ensures found <==> Overridden(data)
  {
    var i := 0;
    while i < |data|
      invariant 0 <= i && ClearBefore(data, i) && AtCode(data, i)
      decreases |data| - i
    {
      var start := i;
      i := SkipAside(data, i);
      if i > start {
        continue;
      }
      if data[i] == DOLLAR {
        if AssignmentAt(data, i) {
          return true;
        }
      } else {
        NotAssignment(data, i);
      }
      StepPlain(data, i);
      i := i + 1;
    }
    found := false;
  }

  /** Jumps over a comment or a string that starts here; otherwise stays. */
  method SkipAside(data: Bytes, start: nat) returns (i: nat)
    requires start < |data| && ClearBefore(data, start) && AtCode(data, start)
    ensures i >= start && ClearBefore(data, i) && AtCode(data, i)
    ensures i == start ==> PlainAt(data, i)
  {
    i := start;
    if data[i] == HASH || (data[i] == SLASH && i + 1 < |data| && data[i + 1] == SLASH) {
      i := SkipLine(data, i);
    } else if data[i] == SLASH && i + 1 < |data| && data[i + 1] == STAR {
      i := SkipBlock(data, i);
    } else if data[i] == SQUOTE || data[i] == DQUOTE {
      i := SkipString(data, i);
    } else {
      return;
    }
    ClearSkip(data, start, i);
  }

  method SkipLine(data: Bytes, start: nat) returns (i: nat)
    requires start < |data| && ModeAt(data, start) == Code
    requires data[start] == HASH || (data[start] == SLASH && start + 1 < |data| && data[start + 1] == SLASH)
    ensures start < i <= |data| && Skipped(data, start, i)
    ensures i < |data| ==> ModeAt(data, i) == Line && data[i] == LF
  {
    i := start;
    while i < |data| && data[i] != LF
      invariant start <= i <= |data|
      invariant i > start ==> ModeAt(data, i) == Line
      invariant Skipped(data, start, i)
    {
      Step(data, i);
      i := i + 1;
    }
  }

  method SkipBlock(data: Bytes, start: nat) returns (i: nat)
    requires start + 1 < |data| && ModeAt(data, start) == Code
    requires data[start] == SLASH && data[start + 1] == STAR
    ensures start < i && Skipped(data, start, i)
    ensures i < |data| ==> ModeAt(data, i) == Code
  {
    Step(data, start);
    Step(data, start + 1);
    i := start + 2;
    while i + 1 < |data| && !(data[i] == STAR && data[i + 1] == SLASH)
      invariant start + 2 <= i <= |data|
      invariant ModeAt(data, i) == Block
      invariant Skipped(data, start, i)
    {
      Step(data, i);
      i := i + 1;
    }
    if i + 1 < |data| {
      Step(data, i);
      Step(data, i + 1);
    }
    i := i + 2;
  }

  method SkipString(data: Bytes, start: nat) returns (i: nat)
    requires start < |data| && ModeAt(data, start) == Code
    requires data[start] == SQUOTE || data[start] == DQUOTE
    ensures start < i && Skipped(data, start, i)
    ensures i < |data| ==> ModeAt(data, i) == Code
  {
    var quote := data[start];
    Step(data, start);
    i := start + 1;
    while i < |data|
      invariant start + 1 <= i && Skipped(data, start, i)
      invariant i <= |data| ==> ModeAt(data, i) == Str(quote)
    {
      Step(data, i);
      if data[i] == BACKSLASH {
        if i + 1 < |data| {
          Step(data, i + 1);
        }
        i := i + 2;
        continue;
      }
      if data[i] == quote {
        i := i + 1;
        break;
      }
      i := i + 1;
    }
  }

  // ------------------------------------------------------------------ passwords

  /** validRoundcubePassword. */
  predicate ValidPassword(password: Bytes) {
    password != [] && |password| <= 4096 && NUL !in password && CR !in password && LF !in password
  }

  function DoubledByte(c: byte): Bytes {
    if c == SQUOTE then [SQUOTE, SQUOTE] else [c]
  }

  /** Every apostrophe doubled. */
  function Doubled(s: Bytes): Bytes {
    if s == [] then [] else DoubledByte(s[0]) + Doubled(s[1..])
  }

  datatype Lexed = Lexed(value: Bytes, rest: Bytes)

  /** An SQL string literal after its opening apostrophe, with backslashes ordinary characters. */
  function LexSQL(text: Bytes): Option<Lexed> {
    if text == [] then None
    else if text[0] != SQUOTE then More(text[0], LexSQL(text[1..]))
    else if |text| > 1 && text[1] == SQUOTE then More(SQUOTE, LexSQL(text[2..]))
    else Some(Lexed([], text[1..]))
  }

  function More(c: byte, lexed: Option<Lexed>): Option<Lexed> {
    if lexed.None? then None else Some(Lexed([c] + lexed.value.value, lexed.value.rest))
  }

  lemma LexDoubledByte(c: byte, text: Bytes)
    ensures LexSQL(DoubledByte(c) + text) == More(c, LexSQL(text))
  {
  }

  /** The doubled password lexes back to itself and ends at the closing apostrophe, whatever statement follows. */
  lemma {:induction false} SQLPasswordRoundTrip(password: Bytes, rest: Bytes)
    requires rest == [] || rest[0] != SQUOTE
    ensures LexSQL(Doubled(password) + ([SQUOTE] + rest)) == Some(Lexed(password, rest))
  {
    var tail := [SQUOTE] + rest;
    if password == [] {
      assert Doubled(password) + tail == tail && tail[1..] == rest;
    } else {
      SQLPasswordRoundTrip(password[1..], rest);
      LexDoubledByte(password[0], Doubled(password[1..]) + tail);
      ConcatAssociative(DoubledByte(password[0]), Doubled(password[1..]), tail);
      assert password == [password[0]] + password[1..];
    }
  }

  /** An escape sequence of an option file; an unknown one keeps its backslash. */
  function OptionEscape(c: byte): Bytes {
    if c == 'n' as int then [LF] else if c == 't' as int then [TAB] else if c == 'r' as int then [CR]
    else if c == 'b' as int then [8] else if c == 's' as int then [SPACE]
    else if c == DQUOTE || c == SQUOTE || c == BACKSLASH then [c]
    else [BACKSLASH, c]
  }

  /** A double-quoted option value after its opening quote; it may not run past its line. */
  function LexOption(text: Bytes): Option<Lexed> {
    if text == [] || text[0] == LF then None
    else if text[0] == DQUOTE then Some(Lexed([], text[1..]))
    else if text[0] == BACKSLASH then
      if |text| < 2 || text[1] == LF then None
      else
        match LexOption(text[2..])
        case None => None
        case Some(l) => Some(Lexed(OptionEscape(text[1]) + l.value, l.rest))
    else More(text[0], LexOption(text[1..]))
  }

  lemma LexEscapedByte(c: byte, text: Bytes)
    requires c != LF
    ensures LexOption(EscapedByte(c, DQUOTE) + text) == More(c, LexOption(text))
  {
  }

  /** A valid password written to the option file is read back exactly, ending at its closing quote. */
  lemma {:induction false} OptionPasswordRoundTrip(password: Bytes, rest: Bytes)
    requires LF !in password
    ensures LexOption(Escape(password, DQUOTE) + ([DQUOTE] + rest)) == Some(Lexed(password, rest))
  {
    var tail := [DQUOTE] + rest;
    if password == [] {
      assert Escape(password, DQUOTE) + tail == tail && tail[1..] == rest;
    } else {
      OptionPasswordRoundTrip(password[1..], rest);
      LexEscapedByte(password[0], Escape(password[1..], DQUOTE) + tail);
      ConcatAssociative(EscapedByte(password[0], DQUOTE), Escape(password[1..], DQUOTE), tail);
      assert password == [password[0]] + password[1..];
    }
  }

  /** Every accepted password survives both ways it is written out, and neither runs on past its closing quote. */
  lemma PasswordRoundTrips(password: Bytes, rest: Bytes)
    requires ValidPassword(password) && (rest == [] || rest[0] != SQUOTE)
    ensures LexSQL(Doubled(password) + ([SQUOTE] + rest)) == Some(Lexed(password, rest))
    ensures LexOption(Escape(password, DQUOTE) + ([DQUOTE] + rest)) == Some(Lexed(password, rest))
  {
    SQLPasswordRoundTrip(password, rest);
    OptionPasswordRoundTrip(password, rest);
  }
}
