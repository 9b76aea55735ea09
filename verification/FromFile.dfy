/** The `@pmFromFile` family in SecLang text: the regular expression that finds its file
    tokens, read left to right and greedily, and what it finds, said without it.

    Text is a sequence of runes. Every scan works on the whole text `s` from a position `i`. */
module FromFile {
  import opened Text

  /** `\s` of the regular expression. */
  predicate IsGap(c: char) { c == ' ' || c == '\t' || c == '\n' || c == '\r' || c == '\U{0C}' }

  /** `unicode.IsSpace`, which `strings.Fields` and `strings.TrimSpace` use. */
  predicate IsBlank(c: char) {
    || IsGap(c) || c == '\U{0B}' || c == '\U{85}' || c == '\U{A0}' || c == '\U{1680}'
    || '\U{2000}' <= c <= '\U{200A}' || c == '\U{2028}' || c == '\U{2029}' || c == '\U{202F}'
    || c == '\U{205F}' || c == '\U{3000}'
  }

  predicate IsQuote(c: char) { c == '"' || c == '\'' }

  predicate IsToken(c: char) { !IsGap(c) && !IsQuote(c) }

  const OPERATORS := ["pmfromfile", "pmf", "ipmatchfromfile", "ipmatchf"]

  /** `@`, the operator in any case, and white space stand at `i`. */
  predicate OpIs(s: string, i: nat, op: string) {
    && i + 1 + |op| < |s| && s[i] == '@'
    && Lower(s[i + 1..i + 1 + |op|]) == op && IsGap(s[i + 1 + |op|])
  }

  /** End of the `@operator` at `i`, when there is one and white space follows it. */
  function OpEnd(s: string, i: nat): (r: Option<nat>)
    ensures r.Some? ==> i < r.value < |s|
  {
    if OpIs(s, i, OPERATORS[0]) then Some(i + 11)
    else if OpIs(s, i, OPERATORS[1]) then Some(i + 4)
    else if OpIs(s, i, OPERATORS[2]) then Some(i + 16)
    else if OpIs(s, i, OPERATORS[3]) then Some(i + 9)
    else None
  }

  function GapEnd(s: string, i: nat): (j: nat)
    requires i <= |s|
    ensures i <= j <= |s|
    ensures forall k :: i <= k < j ==> IsGap(s[k])
    ensures j < |s| ==> !IsGap(s[j])
    decreases |s| - i
  {
    if i < |s| && IsGap(s[i]) then GapEnd(s, i + 1) else i
  }

  function TokenEnd(s: string, i: nat): (j: nat)
    requires i <= |s|
    ensures i <= j <= |s|
    ensures forall k :: i <= k < j ==> IsToken(s[k])
    ensures j < |s| ==> !IsToken(s[j])
    decreases |s| - i
  {
    if i < |s| && IsToken(s[i]) then TokenEnd(s, i + 1) else i
  }

  /** End of the captured group: tokens separated by white space, as many as there are. */
  function GroupEnd(s: string, i: nat): (j: nat)
    requires i < |s| && IsToken(s[i])
    ensures i < j <= |s|
    ensures forall k :: i <= k < j ==> !IsQuote(s[k])
    ensures j < |s| ==> !IsToken(s[j])
    ensures GapEnd(s, j) < |s| ==> IsQuote(s[GapEnd(s, j)])
    decreases |s| - i
  {
    hide IsGap, IsQuote;
    var a := TokenEnd(s, i);
    var w := GapEnd(s, a);
    if w < |s| && IsToken(s[w]) then GapHasNoQuote(s, a); GroupEnd(s, w) else a
  }

  lemma GapHasNoQuote(s: string, i: nat)
    requires i <= |s|
    ensures forall k :: i <= k < GapEnd(s, i) ==> !IsQuote(s[k])
  {
    hide GapEnd;
  }

  /** The captured group of a match that starts at `i`. */
  datatype Match = Match(start: nat, end: nat)

  function MatchAt(s: string, i: nat): (r: Option<Match>)
    ensures r.Some? ==> i < r.value.start < r.value.end <= |s|
  {
    match OpEnd(s, i)
    case None => None
    case Some(k) =>
      var g := GapEnd(s, k);
      if g < |s| && IsToken(s[g]) then Some(Match(g, GroupEnd(s, g))) else None
  }

  function FieldEnd(s: string, i: nat, e: nat): (j: nat)
    requires i <= e <= |s|
    ensures i <= j <= e
    ensures forall k :: i <= k < j ==> !IsBlank(s[k])
    ensures j < e ==> IsBlank(s[j])
    decreases e - i
  {
    if i < e && !IsBlank(s[i]) then FieldEnd(s, i + 1, e) else i
  }

  /** `strings.Fields` of the text between `i` and `e`. */
  function Fields(s: string, i: nat, e: nat): seq<string>
    requires i <= e <= |s|
    decreases e - i
  {
    if i == e then []
    else if IsBlank(s[i]) then Fields(s, i + 1, e)
    else
      var j := FieldEnd(s, i, e);
      [s[i..j]] + Fields(s, j, e)
  }

  /** The file tokens of every match from `i` on, leftmost first and without overlap. */
  function Tokens(s: string, i: nat): seq<string>
    requires i <= |s|
    decreases |s| - i
  {
    if i == |s| then []
    else
      match MatchAt(s, i)
      case None => Tokens(s, i + 1)
      case Some(m) => Fields(s, m.start, m.end) + Tokens(s, m.end)
  }

  // ----- fields, said without the scan

  /** `s[a..b]` is a maximal run without white space between `i` and `e`. */
  ghost predicate IsField(s: string, i: nat, e: nat, a: nat, b: nat) {
    && i <= a < b <= e <= |s| && (forall k :: a <= k < b ==> !IsBlank(s[k]))
    && (a == i || IsBlank(s[a - 1])) && (b == e || IsBlank(s[b]))
  }

  lemma {:induction false} FieldsComplete(s: string, i: nat, e: nat, a: nat, b: nat)
    requires IsField(s, i, e, a, b)
    ensures s[a..b] in Fields(s, i, e)
    decreases e - i
  {
    hide IsBlank;
    if IsBlank(s[i]) {
      FieldsComplete(s, i + 1, e, a, b);
    } else {
      var j := FieldEnd(s, i, e);
      if a == i {
        assert b == j;
      } else {
        FieldsComplete(s, j, e, a, b);
      }
    }
  }

  lemma {:induction false} FieldsSound(s: string, i: nat, e: nat, f: string) returns (a: nat, b: nat)
    requires i <= e <= |s| && f in Fields(s, i, e)
    ensures IsField(s, i, e, a, b) && s[a..b] == f
    decreases e - i
  {
    hide IsBlank;
    if IsBlank(s[i]) {
      a, b := FieldsSound(s, i + 1, e, f);
    } else {
      var j := FieldEnd(s, i, e);
      if f == s[i..j] {
        a, b := i, j;
      } else {
        a, b := FieldsSound(s, j, e, f);
      }
    }
  }

  // ----- references, said without the regular expression

  /** An operator at `p`, ending at `k`, refers to `s[a..b]`: a run without white space that
      starts after white space, ends at white space, a quote or the end, and no quote stands
      between the operator and the end of the run. */
  ghost predicate Refers(s: string, p: nat, k: nat, a: nat, b: nat) {
    && OpEnd(s, p) == Some(k) && k < a < b <= |s|
    && (forall j :: k <= j < b ==> !IsQuote(s[j])) && (forall j :: a <= j < b ==> !IsBlank(s[j]))
    && IsBlank(s[a - 1]) && (b == |s| || IsBlank(s[b]) || IsQuote(s[b]))
  }

  lemma OpLetters(s: string, i: nat, op: string)
    requires OpIs(s, i, op) && op in OPERATORS
    ensures forall j :: i < j < i + 1 + |op| ==> s[j] != '@' && !IsQuote(s[j]) && !IsGap(s[j])
  {
    hide Lower;
    var w := s[i + 1..i + 1 + |op|];
    forall j | i < j < i + 1 + |op|
      ensures s[j] != '@' && !IsQuote(s[j]) && !IsGap(s[j])
    {
      var c := w[j - i - 1];
      assert c == s[j] && Lower(w)[j - i - 1] == LowerChar(c);
    }
  }

  lemma OpShape(s: string, i: nat)
    ensures OpEnd(s, i).Some? ==>
              var k := OpEnd(s, i).value;
              && s[i] == '@' && IsGap(s[k])
              && forall j :: i < j < k ==> s[j] != '@' && !IsQuote(s[j]) && !IsGap(s[j])
  {
    hide IsQuote, IsGap;
    var n := if OpIs(s, i, OPERATORS[0]) then 0 else if OpIs(s, i, OPERATORS[1]) then 1
             else if OpIs(s, i, OPERATORS[2]) then 2 else 3;
    if OpEnd(s, i).Some? { OpLetters(s, i, OPERATORS[n]); }
  }

  /** A reference of the operator at `i` lies inside the group the match at `i` captures. */
  lemma ReferenceMatches(s: string, i: nat, k: nat, a: nat, b: nat)
    requires Refers(s, i, k, a, b)
    ensures MatchAt(s, i).Some? && MatchAt(s, i).value.start <= a
  {
    hide OpEnd, GapEnd, GroupEnd;
    var g := GapEnd(s, k);
    assert IsGap(s[a]) ==> IsBlank(s[a]);
    assert g < b && !IsQuote(s[g]);
  }

  /** A match reaches every reference that starts inside it. */
  lemma MatchReaches(s: string, i: nat, b: nat)
    requires MatchAt(s, i).Some?
    requires var m := MatchAt(s, i).value;
             m.start < b <= |s| && !IsBlank(s[b - 1]) && forall j :: m.start <= j < b ==> !IsQuote(s[j])
    ensures b <= MatchAt(s, i).value.end
  {
    hide OpEnd, GapEnd, GroupEnd, IsQuote;
    var e := MatchAt(s, i).value.end;
    var w := GapEnd(s, e);
    assert !IsGap(s[b - 1]);
  }

  /** Inside a match no `@` stands before the captured group. */
  lemma MatchStart(s: string, i: nat, p: nat)
    requires MatchAt(s, i).Some? && i < p < MatchAt(s, i).value.start
    ensures s[p] != '@'
  {
    hide GapEnd, GroupEnd, OpEnd, IsQuote;
    OpShape(s, i);
  }

  lemma FieldOfMatch(s: string, i: nat, p: nat, k: nat, a: nat, b: nat)
    requires MatchAt(s, i).Some? && Refers(s, p, k, a, b) && i <= p < MatchAt(s, i).value.end
    ensures var m := MatchAt(s, i).value; IsField(s, m.start, m.end, a, b)
  {
    hide GapEnd, GroupEnd, OpEnd, IsQuote, IsBlank, MatchAt;
    var m := MatchAt(s, i).value;
    OpShape(s, p);
    if p == i {
      ReferenceMatches(s, i, k, a, b);
      assert k <= m.start by { StartAfterOp(s, i); }
    } else if p < m.start {
      MatchStart(s, i, p);
    }
    GroupHasNoQuote(s, i);
    MatchReaches(s, i, b);
  }

  lemma StartAfterOp(s: string, i: nat)
    requires MatchAt(s, i).Some?
    ensures OpEnd(s, i).Some? && OpEnd(s, i).value < MatchAt(s, i).value.start
    ensures forall j :: OpEnd(s, i).value <= j < MatchAt(s, i).value.start ==> IsGap(s[j])
  {
    hide OpEnd, GapEnd, IsQuote, GroupEnd;
    OpShape(s, i);
  }

  lemma GroupHasNoQuote(s: string, i: nat)
    requires MatchAt(s, i).Some?
    ensures var m := MatchAt(s, i).value;
            && (forall j :: m.start <= j < m.end ==> !IsQuote(s[j]))
            && (m.end < |s| ==> !IsToken(s[m.end]))
  {
    hide OpEnd, GapEnd, GroupEnd, IsQuote;
  }

  lemma {:induction false} TokensComplete(s: string, i: nat, p: nat, k: nat, a: nat, b: nat)
    requires i <= p && Refers(s, p, k, a, b)
    ensures i <= |s| && s[a..b] in Tokens(s, i)
    decreases |s| - i
  {
    hide OpEnd, MatchAt, IsQuote, IsBlank;
    if MatchAt(s, i) == None {
      if p == i { ReferenceMatches(s, i, k, a, b); }
      TokensComplete(s, i + 1, p, k, a, b);
    } else {
      var m := MatchAt(s, i).value;
      if p < m.end {
        FieldOfMatch(s, i, p, k, a, b);
        FieldsComplete(s, m.start, m.end, a, b);
      } else {
        TokensComplete(s, m.end, p, k, a, b);
      }
    }
  }

  lemma FieldRefers(s: string, i: nat, a: nat, b: nat)
    requires MatchAt(s, i).Some?
    requires var m := MatchAt(s, i).value; IsField(s, m.start, m.end, a, b)
    ensures OpEnd(s, i).Some? && Refers(s, i, OpEnd(s, i).value, a, b)
  {
    hide OpEnd, GapEnd, GroupEnd, MatchAt, IsQuote, IsGap;
    StartAfterOp(s, i);
    GroupHasNoQuote(s, i);
    GapIsNoQuote(s, OpEnd(s, i).value, MatchAt(s, i).value.start);
  }

  lemma GapIsNoQuote(s: string, i: nat, j: nat)
    requires i <= j <= |s| && forall k :: i <= k < j ==> IsGap(s[k])
    ensures forall k :: i <= k < j ==> !IsQuote(s[k])
  {
  }

  lemma {:induction false} TokensSound(s: string, i: nat, t: string) returns (p: nat, k: nat, a: nat, b: nat)
    requires i <= |s| && t in Tokens(s, i)
    ensures Refers(s, p, k, a, b) && s[a..b] == t
    decreases |s| - i
  {
    hide OpEnd, MatchAt, IsQuote, IsBlank, IsField, Refers;
    if MatchAt(s, i) == None {
      p, k, a, b := TokensSound(s, i + 1, t);
    } else {
      var m := MatchAt(s, i).value;
      if t in Fields(s, m.start, m.end) {
        a, b := FieldsSound(s, m.start, m.end, t);
        FieldRefers(s, i, a, b);
        p, k := i, OpEnd(s, i).value;
      } else {
        p, k, a, b := TokensSound(s, m.end, t);
      }
    }
  }

  /** The regular expression finds exactly the runs an operator refers to. */
  lemma TokensExact(s: string, t: string)
    ensures t in Tokens(s, 0) <==> exists p: nat, k: nat, a: nat, b: nat :: Refers(s, p, k, a, b) && s[a..b] == t
  {
    hide Tokens, OpEnd, IsBlank, IsQuote;
    if t in Tokens(s, 0) {
      var p, k, a, b := TokensSound(s, 0, t);
    }
    forall p: nat, k: nat, a: nat, b: nat | Refers(s, p, k, a, b) && s[a..b] == t
      ensures t in Tokens(s, 0)
    {
      TokensComplete(s, 0, p, k, a, b);
    }
  }

  // ----- a piece of a text refers to nothing the text does not refer to

  lemma OpsExclude(s: string, i: nat, x: string, y: string)
    requires OpIs(s, i, x) && OpIs(s, i, y) && x in OPERATORS && y in OPERATORS
    ensures |x| == |y|
  {
    hide OpIs, Lower;
    OpLetters(s, i, x);
    OpLetters(s, i, y);
    assert IsGap(s[i + 1 + |x|]) && IsGap(s[i + 1 + |y|]) by { OpGap(s, i, x); OpGap(s, i, y); }
  }

  lemma OpGap(s: string, i: nat, x: string)
    requires OpIs(s, i, x)
    ensures i + 1 + |x| < |s| && IsGap(s[i + 1 + |x|])
  {
  }

  lemma OpEndIs(s: string, i: nat, op: string)
    requires OpIs(s, i, op) && op in OPERATORS
    ensures OpEnd(s, i) == Some(i + 1 + |op|)
  {
    hide OpIs, Lower, IsGap;
    if OpIs(s, i, OPERATORS[0]) { OpsExclude(s, i, op, OPERATORS[0]); }
    if OpIs(s, i, OPERATORS[1]) { OpsExclude(s, i, op, OPERATORS[1]); }
    if OpIs(s, i, OPERATORS[2]) { OpsExclude(s, i, op, OPERATORS[2]); }
    if OpIs(s, i, OPERATORS[3]) { OpsExclude(s, i, op, OPERATORS[3]); }
  }

  /** The four operators, in any case, with white space after them. */
  lemma OperatorsAre(s: string, i: nat, k: nat)
    requires i < k < |s|
    ensures OpEnd(s, i) == Some(k) <==>
            s[i] == '@' && IsGap(s[k]) && Lower(s[i + 1..k]) in ["pmfromfile", "pmf", "ipmatchfromfile", "ipmatchf"]
  {
    hide Lower, IsGap;
    assert |OPERATORS[0]| == 10 && |OPERATORS[1]| == 3 && |OPERATORS[2]| == 15 && |OPERATORS[3]| == 8;
    var w := Lower(s[i + 1..k]);
    if s[i] == '@' && IsGap(s[k]) && w in OPERATORS {
      assert |w| == k - i - 1;
      OpEndIs(s, i, w);
    }
  }

  lemma SliceOfSlice(s: string, i: nat, j: nat, a: nat, b: nat)
    requires i <= j <= |s| && a <= b <= j - i
    ensures s[i..j][a..b] == s[i + a..i + b]
  {
    var l, r := s[i..j][a..b], s[i + a..i + b];
    assert |l| == |r| && forall k :: 0 <= k < |l| ==> l[k] == r[k];
  }

  lemma OpIsWithin(s: string, i: nat, j: nat, p: nat, op: string)
    requires i <= j <= |s| && OpIs(s[i..j], p, op)
    ensures OpIs(s, i + p, op)
  {
    hide Lower, IsGap;
    SliceOfSlice(s, i, j, p + 1, p + 1 + |op|);
  }

  lemma OpWithin(s: string, i: nat, j: nat, p: nat)
    requires i <= j <= |s| && OpEnd(s[i..j], p).Some?
    ensures OpEnd(s, i + p) == Some(i + OpEnd(s[i..j], p).value)
  {
    hide OpIs;
    var t := s[i..j];
    var n := if OpIs(t, p, OPERATORS[0]) then 0 else if OpIs(t, p, OPERATORS[1]) then 1
             else if OpIs(t, p, OPERATORS[2]) then 2 else 3;
    OpIsWithin(s, i, j, p, OPERATORS[n]);
    OpEndIs(s, i + p, OPERATORS[n]);
  }

  /** What a piece of the text refers to, the text refers to, when white space or the end follows
      the piece. */
  lemma RefersWithin(s: string, i: nat, j: nat, p: nat, k: nat, a: nat, b: nat)
    requires i <= j <= |s| && (j == |s| || IsBlank(s[j])) && Refers(s[i..j], p, k, a, b)
    ensures Refers(s, i + p, i + k, i + a, i + b)
  {
    hide OpEnd, IsBlank, IsQuote;
    var t := s[i..j];
    OpWithin(s, i, j, p);
    forall n | i + k <= n < i + b ensures !IsQuote(s[n]) { assert s[n] == t[n - i]; }
    forall n | i + a <= n < i + b ensures !IsBlank(s[n]) { assert s[n] == t[n - i]; }
    assert s[i + a - 1] == t[a - 1];
    assert b < |t| ==> s[i + b] == t[b];
  }

  lemma TokensWithin(s: string, i: nat, j: nat, t: string)
    requires i <= j <= |s| && (j == |s| || IsBlank(s[j])) && t in Tokens(s[i..j], 0)
    ensures t in Tokens(s, 0)
  {
    hide OpEnd, IsBlank, IsQuote, Tokens;
    var p, k, a, b := TokensSound(s[i..j], 0, t);
    RefersWithin(s, i, j, p, k, a, b);
    SliceOfSlice(s, i, j, a, b);
    TokensComplete(s, 0, i + p, i + k, i + a, i + b);
  }

  /** The ASCII characters that separate, quote and make up file tokens. */
  lemma CharClasses(c: char)
    requires c < '\U{80}'
    ensures IsGap(c) <==> c in " \t\n\r" || c == '\U{0C}'
    ensures IsBlank(c) <==> c in " \t\n\r" || c == '\U{0B}' || c == '\U{0C}'
    ensures IsToken(c) <==> !IsGap(c) && c != '"' && c != '\''
  {
  }
}
