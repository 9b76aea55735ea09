/** The cursor helpers of the PromQL scanner.

    A query is a Go string; each `char` stands for one of its bytes, because the
    scanner indexes bytes and widens each one to a rune on its own. Every helper
    looks only to the right of its cursor, so the functions speak about the text
    that is left and count the bytes taken; the methods walk an index over the
    whole query, as the scanner does, and are proved to agree with the functions. */
module PromLexer {
  import opened Text

  datatype Error =
    | EmptyQuery
    | MissingIdentity
    | InvalidIdentity
    | UnterminatedString
    | UnterminatedRange
    | UnterminatedSelector
    | UnterminatedGrouping
    | UnterminatedMatcher
    | NotEquality(key: string)
    | EscapesScope
    | SliceOutOfRange  // the slice expression panics

  /** "No open quote", the zero byte of the scanner's `quote` variable. */
  const NUL: char := '\U{00}'

  predicate IsQuote(c: char) { c == '"' || c == '\'' }

  predicate IsDigit(c: char) { '0' <= c <= '9' }

  /** `unicode.IsLetter` on a single byte, that is, on Latin-1. */
  predicate IsLetter(c: char) {
    || 'a' <= c <= 'z' || 'A' <= c <= 'Z'
    || c == '\U{AA}' || c == '\U{B5}' || c == '\U{BA}'
    || '\U{C0}' <= c <= '\U{D6}' || '\U{D8}' <= c <= '\U{F6}' || '\U{F8}' <= c <= '\U{FF}'
  }

  predicate IsIdentStart(c: char) { c == '_' || c == ':' || IsLetter(c) }

  predicate IsIdentCont(c: char) { IsIdentStart(c) || IsDigit(c) }

  predicate IsBlank(c: char) { c == ' ' || c == '\t' || c == '\n' || c == '\r' }

  function Later(n: nat, r: Option<nat>): Option<nat> {
    if r.Some? then Some(n + r.value) else None
  }

  // ----- what the helpers compute, on the text from the cursor on

  /** A kind of group. Only a `nested` kind counts further openings inside it. */
  datatype Group = Group(open: char, close: char, nested: bool)

  const PAREN := Group('(', ')', true)
  const BRACKET := Group('[', ']', true)
  const BRACE := Group('{', '}', false)

  /** What the scanner remembers inside a group: the open quote, whether a backslash
      was just read inside it, and how many closings are still due. */
  datatype Lex = Lex(quote: char, esc: bool, depth: nat)

  const PLAIN := Lex(NUL, false, 1)

  function Next(l: Lex, c: char, g: Group): Lex {
    if l.quote != NUL then
      if l.esc then l.(esc := false)
      else if c == '\\' then l.(esc := true)
      else if c == l.quote then l.(quote := NUL)
      else l
    else if IsQuote(c) then l.(quote := c)
    else if g.nested && c == g.open then l.(depth := l.depth + 1)
    else if c == g.close && l.depth > 0 then l.(depth := l.depth - 1)
    else l
  }

  function Run(l: Lex, s: string, g: Group): Lex
    decreases |s|
  {
    if s == "" then l else Run(Next(l, s[0], g), s[1..], g)
  }

  /** Bytes up to and including the one that brings the depth to zero. */
  function CloseEnd(l: Lex, s: string, g: Group): (r: Option<nat>)
    ensures r.Some? ==> 0 < r.value <= |s|
    decreases |s|
  {
    if s == "" then None
    else if Next(l, s[0], g).depth == 0 then Some(1)
    else Later(1, CloseEnd(Next(l, s[0], g), s[1..], g))
  }

  function GroupEnd(s: string, g: Group): (r: Option<nat>)
    ensures r.Some? ==> 1 < r.value <= |s|
  {
    if s != "" && s[0] == g.open then Later(1, CloseEnd(PLAIN, s[1..], g)) else None
  }

  /** Bytes up to and including the quote that ends a string whose opening quote was just read. */
  function QuoteEnd(s: string, quote: char): (r: Option<nat>)
    ensures r.Some? ==> 0 < r.value <= |s|
  {
    if s == "" then None
    else if s[0] == '\\' && |s| > 1 then Later(2, QuoteEnd(s[2..], quote))
    else if s[0] == quote then Some(1)
    else Later(1, QuoteEnd(s[1..], quote))
  }

  function BlankLen(s: string): (n: nat)
    ensures n <= |s|
  {
    if s != "" && IsBlank(s[0]) then 1 + BlankLen(s[1..]) else 0
  }

  function DigitLen(s: string): (n: nat)
    ensures n <= |s|
  {
    if s != "" && IsDigit(s[0]) then 1 + DigitLen(s[1..]) else 0
  }

  function ContLen(s: string): (n: nat)
    ensures n <= |s|
  {
    if s != "" && IsIdentCont(s[0]) then 1 + ContLen(s[1..]) else 0
  }

  function IdentLen(s: string): (n: nat)
    ensures n <= |s|
  {
    if s != "" && IsIdentStart(s[0]) then 1 + ContLen(s[1..]) else 0
  }

  predicate NumberStarts(s: string) {
    s != "" && (IsDigit(s[0]) || (s[0] == '.' && |s| > 1 && IsDigit(s[1])))
  }

  function FractionLen(s: string): (n: nat)
    ensures n <= |s|
  {
    if s != "" && s[0] == '.' then 1 + DigitLen(s[1..]) else 0
  }

  /** An exponent counts only when at least one digit follows it. */
  function ExponentLen(s: string): (n: nat)
    ensures n <= |s|
  {
    if s == "" || (s[0] != 'e' && s[0] != 'E') then 0
    else
      var sign := if |s| > 1 && (s[1] == '+' || s[1] == '-') then 1 else 0;
      var digits := DigitLen(s[1 + sign..]);
      if digits == 0 then 0 else 1 + sign + digits
  }

  function NumberLen(s: string): (n: nat)
    ensures n <= |s|
    ensures NumberStarts(s) ==> n > 0
  {
    var a := DigitLen(s);
    var b := FractionLen(s[a..]);
    a + b + ExponentLen(s[a + b..])
  }

  // ----- the scanner's loops

  method SkipSpace(q: string, start: nat) returns (i: nat)
    requires start <= |q|
    ensures i == start + BlankLen(q[start..])
  {
    i := start;
    while i < |q| && IsBlank(q[i])
      invariant start <= i <= |q|
      invariant start + BlankLen(q[start..]) == i + BlankLen(q[i..])
    {
      assert q[i..][1..] == q[i + 1..];
      i := i + 1;
    }
  }

  method SkipDigits(q: string, start: nat) returns (i: nat)
    requires start <= |q|
    ensures i == start + DigitLen(q[start..])
  {
    i := start;
    while i < |q| && IsDigit(q[i])
      invariant start <= i <= |q|
      invariant start + DigitLen(q[start..]) == i + DigitLen(q[i..])
    {
      assert q[i..][1..] == q[i + 1..];
      i := i + 1;
    }
  }

  method SkipFraction(q: string, start: nat) returns (i: nat)
    requires start <= |q|
    ensures i == start + FractionLen(q[start..])
  {
    i := start;
    if i < |q| && q[i] == '.' {
      i := SkipDigits(q, i + 1);
      assert q[start..][1..] == q[start + 1..];
    }
  }

  method SkipExponent(q: string, start: nat) returns (i: nat)
    requires start <= |q|
    ensures i == start + ExponentLen(q[start..])
  {
    i := start;
    if i < |q| && (q[i] == 'e' || q[i] == 'E') {
      var j := i + 1;
      if j < |q| && (q[j] == '+' || q[j] == '-') {
        j := j + 1;
      }
      assert q[start..][j - start..] == q[j..];
      if j < |q| && IsDigit(q[j]) {
        i := SkipDigits(q, j);
      }
    }
  }

  method SkipNumber(q: string, start: nat) returns (i: nat)
    requires start <= |q|
    ensures i == start + NumberLen(q[start..])
  {
    var a := SkipDigits(q, start);
    assert q[start..][a - start..] == q[a..];
    var b := SkipFraction(q, a);
    assert q[start..][b - start..] == q[b..];
    i := SkipExponent(q, b);
  }

  method ReadIdent(q: string, start: nat) returns (ident: string, i: nat)
    requires start <= |q|
    ensures i == start + IdentLen(q[start..])
    ensures ident == q[start..i]
  {
    i := start;
    while i < |q| && (if i == start then IsIdentStart(q[i]) else IsIdentCont(q[i]))
      invariant start <= i <= |q|
      invariant start + IdentLen(q[start..]) == if i == start then i + IdentLen(q[i..]) else i + ContLen(q[i..])
    {
      assert q[i..][1..] == q[i + 1..];
      i := i + 1;
    }
    ident := q[start..i];
  }

  method SkipQuoted(q: string, start: nat) returns (r: Result<nat, Error>)
    requires start < |q| && IsQuote(q[start])
    ensures r == match QuoteEnd(q[start + 1..], q[start])
                 case Some(n) => Ok(start + 1 + n)
                 case None => Err(UnterminatedString)
  {
    var quote := q[start];
    var i := start + 1;
    while i < |q|
      invariant start + 1 <= i <= |q|
      invariant Later(start + 1, QuoteEnd(q[start + 1..], quote)) == Later(i, QuoteEnd(q[i..], quote))
    {
      if q[i] == '\\' && i + 1 < |q| {
        assert q[i..][2..] == q[i + 2..];
        i := i + 2;
        continue;
      }
      if q[i] == quote {
        return Ok(i + 1);
      }
      assert q[i..][1..] == q[i + 1..];
      i := i + 1;
    }
    return Err(UnterminatedString);
  }

  predicate GroupMarks(g: Group) {
    !IsQuote(g.open) && !IsQuote(g.close) && g.open != g.close
  }

  /** The loop that `readSelector`, `skipBracket` and `skipParen` share: quotes hide
      everything, `nested` openings deepen, and the close at depth one ends the group. */
  method SkipGroup(q: string, start: nat, g: Group) returns (end: Option<nat>)
    requires start < |q| && GroupMarks(g)
    ensures end == Later(start, GroupEnd(q[start..], g))
  {
    if q[start] != g.open {
      return None;
    }
    var quote, depth, i := NUL, 1, start + 1;
    ghost var want := Later(start, GroupEnd(q[start..], g));
    assert q[start..][1..] == q[start + 1..];
    while i < |q|
      invariant start + 1 <= i <= |q| && depth >= 1
      invariant want == EndFrom(Lex(quote, false, depth), q, i, g)
    {
      var c := q[i];
      EndFromStep(Lex(quote, false, depth), q, i, g);
      if quote != NUL {
        if c == '\\' && i + 1 < |q| {
          EndFromStep(Lex(quote, true, depth), q, i + 1, g);
          i := i + 2;
          continue;
        }
        if c == quote {
          quote := NUL;
        }
      } else if IsQuote(c) {
        quote := c;
      } else if g.nested && c == g.open {
        depth := depth + 1;
      } else if c == g.close {
        depth := depth - 1;
        if depth == 0 {
          return Some(i + 1);
        }
      }
      i := i + 1;
    }
    return None;
  }

  ghost function EndFrom(l: Lex, q: string, i: nat, g: Group): Option<nat>
    requires i <= |q|
  {
    if i == |q| then None else Later(i, CloseEnd(l, q[i..], g))
  }

  lemma EndFromStep(l: Lex, q: string, i: nat, g: Group)
    requires i < |q|
    ensures EndFrom(l, q, i, g) ==
            if Next(l, q[i], g).depth == 0 then Some(i + 1) else EndFrom(Next(l, q[i], g), q, i + 1, g)
  {
    assert q[i..][1..] == q[i + 1..];
  }
}
