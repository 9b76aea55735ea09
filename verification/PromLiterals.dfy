/** How PromQL reads a double-quoted string, and that it reads back what the scanner writes. */
module PromLiterals {
  import opened Text
  import opened PromLexer
  import opened PromScope
  import opened PromMeaning
  import opened PromUnions

  /** The value of a hexadecimal digit. */
  function HexValue(c: char): Option<nat> {
    if '0' <= c <= '9' then Some(c as nat - '0' as nat)
    else if 'a' <= c <= 'f' then Some(c as nat - 'a' as nat + 10)
    else if 'A' <= c <= 'F' then Some(c as nat - 'A' as nat + 10)
    else None
  }

  /** The byte that a backslash and a letter stand for. */
  function Named(c: char): Option<char> {
    match c
    case 'a' => Some('\U{07}')
    case 'b' => Some('\U{08}')
    case 't' => Some('\U{09}')
    case 'n' => Some('\U{0A}')
    case 'v' => Some('\U{0B}')
    case 'f' => Some('\U{0C}')
    case 'r' => Some('\U{0D}')
    case '\\' => Some('\\')
    case '"' => Some('"')
    case _ => None
  }

  function Before(c: char, rest: Option<string>): Option<string> { if rest.None? then None else Some([c] + rest.value) }

  /** What the text between the quotes stands for; none if it has another escape or a bare quote. */
  function Reading(body: string): Option<string>
    decreases |body|
  {
    if body == "" then Some("")
    else if body[0] == '"' then None
    else if body[0] != '\\' then Before(body[0], Reading(body[1..]))
    else if |body| > 1 && Named(body[1]).Some? then Before(Named(body[1]).value, Reading(body[2..]))
    else if |body| > 3 && body[1] == 'x' && HexValue(body[2]).Some? && HexValue(body[3]).Some? then
      Before((16 * HexValue(body[2]).value + HexValue(body[3]).value) as char, Reading(body[4..]))
    else None
  }

  lemma HexBack(n: nat)
    requires n < 16
    ensures HexValue(HexDigit(n)) == Some(n)
  {
    hide HexDigit;
    HexCode(n);
  }

  lemma HexCode(n: nat)
    requires n < 16
    ensures HexDigit(n) as int == if n < 10 then '0' as int + n else 'a' as int - 10 + n
  {
    if n < 8 {
      if n < 4 { assert n == 0 || n == 1 || n == 2 || n == 3; } else { assert n == 4 || n == 5 || n == 6 || n == 7; }
    } else {
      if n < 12 { assert n == 8 || n == 9 || n == 10 || n == 11; } else { assert n == 12 || n == 13 || n == 14 || n == 15; }
    }
  }

  lemma HexReads(c: char, rest: string)
    requires c < '\U{100}'
    ensures Reading("\\x" + ([HexDigit(c as int / 16)] + ([HexDigit(c as int % 16)] + rest))) == Before(c, Reading(rest))
  {
    hide HexDigit;
    HexBack(c as int / 16);
    HexBack(c as int % 16);
    var body := "\\x" + ([HexDigit(c as int / 16)] + ([HexDigit(c as int % 16)] + rest));
    assert body[4..] == rest;
    assert body[2] == HexDigit(c as int / 16) && body[3] == HexDigit(c as int % 16);
  }

  lemma NamedReads(letter: char, rest: string)
    requires Named(letter).Some?
    ensures Reading("\\" + ([letter] + rest)) == Before(Named(letter).value, Reading(rest))
  {
    var body := "\\" + ([letter] + rest);
    assert body[1] == letter && body[2..] == rest;
  }

  lemma CharReads(c: char, rest: string)
    ensures Reading(EscapeChar(c) + rest) == Before(c, Reading(rest))
  {
    hide HexDigit, Reading;
    var e := EscapeChar(c);
    if |e| == 1 {
      PlainReads(c, rest);
    } else if |e| == 2 {
      assert e + rest == "\\" + ([e[1]] + rest);
      NamedReads(e[1], rest);
    } else {
      HexReads(c, rest);
      assert e + rest == "\\x" + ([HexDigit(c as int / 16)] + ([HexDigit(c as int % 16)] + rest));
    }
  }

  lemma PlainReads(c: char, rest: string)
    requires c != '"' && c != '\\'
    ensures Reading([c] + rest) == Before(c, Reading(rest))
  {
    assert ([c] + rest)[1..] == rest;
  }

  /** Reading what the scanner writes for a string gives the string. */
  lemma {:induction false} EscapeReadsBack(s: string)
    ensures Reading(Escape(s)) == Some(s)
  {
    hide Reading, EscapeChar;
    if s == "" {
      NothingReads();
    } else {
      EscapeReadsBack(s[1..]);
      CharReads(s[0], Escape(s[1..]));
      assert [s[0]] + s[1..] == s;
    }
  }

  lemma NothingReads()
    ensures Reading("") == Some("")
  {
  }

  /** The world reads double-quoted strings as PromQL does. */
  ghost predicate ReadsLiterals(w: World) {
    forall body :: Reading(body).Some? ==> w.unquote(body) == Reading(body).value
  }

  lemma LiteralsQuoted(w: World)
    requires ReadsLiterals(w)
    ensures ReadsQuoted(w)
  {
    hide Reading;
    forall s: string ensures w.unquote(Escape(s)) == s { EscapeReadsBack(s); }
  }

  /** Text without quotes, backslashes and control bytes is written as it is. */
  lemma {:induction false} PlainStays(s: string)
    requires forall i :: 0 <= i < |s| ==> s[i] >= ' ' && s[i] != '"' && s[i] != '\\' && s[i] != '\U{7F}'
    ensures Escape(s) == s
  {
    if s != "" { PlainStays(s[1..]); }
  }
}
