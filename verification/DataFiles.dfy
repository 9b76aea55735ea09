/** Which data files a list of SecLang directives names, and what is left of the directives when
    some of the names are dropped. A directive is a blob of several lines: names are collected
    line by line, directives are dropped by looking at the whole blob. */
module DataFiles {
  import opened Text
  import opened FromFile

  // ----- the base name of a file token

  function TrimSlashes(p: string): string {
    if p != "" && p[|p| - 1] == '/' then TrimSlashes(p[..|p| - 1]) else p
  }

  function AfterSlash(p: string): (r: string)
    ensures '/' !in r && |r| <= |p| && p[|p| - |r|..] == r
  {
    if p == "" || p[|p| - 1] == '/' then "" else AfterSlash(p[..|p| - 1]) + [p[|p| - 1]]
  }

  /** `path.Base`. */
  function Base(p: string): string {
    if p == "" then "."
    else
      var r := AfterSlash(TrimSlashes(p));
      if r == "" then "/" else r
  }

  function TrimQuotes(s: string): string
    decreases |s|
  {
    if s != "" && IsQuote(s[0]) then TrimQuotes(s[1..])
    else if s != "" && IsQuote(s[|s| - 1]) then TrimQuotes(s[..|s| - 1])
    else s
  }

  function FileName(token: string): string { Base(TrimQuotes(token)) }

  predicate Named(name: string) { name != "" && name != "." }

  // ----- lines

  function LineEnd(s: string, i: nat): (j: nat)
    requires i <= |s|
    ensures i <= j <= |s| && (j < |s| ==> s[j] == '\n')
    decreases |s| - i
  {
    if i < |s| && s[i] != '\n' then LineEnd(s, i + 1) else i
  }

  /** `strings.Split(s, "\n")` of the text from `i` on. */
  function Lines(s: string, i: nat): seq<string>
    requires i <= |s|
    decreases |s| - i
  {
    var j := LineEnd(s, i);
    [s[i..j]] + if j < |s| then Lines(s, j + 1) else []
  }

  function SkipBlank(s: string): string {
    if s != "" && IsBlank(s[0]) then SkipBlank(s[1..]) else s
  }

  /** The line is neither blank nor a comment. */
  predicate IsCode(line: string) {
    var t := SkipBlank(line);
    t != "" && t[0] != '#'
  }

  lemma {:induction false} LineIsSlice(s: string, i: nat, l: string) returns (a: nat, b: nat)
    requires i <= |s| && l in Lines(s, i)
    ensures a <= b <= |s| && (b == |s| || s[b] == '\n') && l == s[a..b]
    decreases |s| - i
  {
    var j := LineEnd(s, i);
    if l == s[i..j] {
      a, b := i, j;
    } else {
      a, b := LineIsSlice(s, j + 1, l);
    }
  }

  // ----- the names of a directive and of a list of directives

  /** Every name the whole blob refers to. */
  function BlobNames(blob: string): set<string> {
    set t | t in Tokens(blob, 0) :: FileName(t)
  }

  function TokenNames(tokens: seq<string>): set<string> {
    set t | t in tokens && Named(FileName(t)) :: FileName(t)
  }

  function LineNames(lines: seq<string>): set<string> {
    set l, b | l in lines && IsCode(l) && b in TokenNames(Tokens(l, 0)) :: b
  }

  /** The names the code lines of the blob refer to. */
  function CodeNames(blob: string): set<string> { LineNames(Lines(blob, 0)) }

  function Names(directives: seq<string>): set<string> {
    set d, b | d in directives && b in CodeNames(d) :: b
  }

  lemma NoNames()
    ensures TokenNames([]) == {} && LineNames([]) == {} && Names([]) == {}
  {
  }

  lemma TokenNamesStep(tokens: seq<string>, t: string)
    ensures TokenNames(tokens + [t]) == TokenNames(tokens) + if Named(FileName(t)) then {FileName(t)} else {}
  {
    hide Named, FileName;
    forall b | b in TokenNames(tokens) ensures b in TokenNames(tokens + [t]) {
      var u :| u in tokens && Named(FileName(u)) && FileName(u) == b;
      assert u in tokens + [t];
    }
    assert t in tokens + [t];
  }

  lemma LineNamesStep(lines: seq<string>, l: string)
    ensures LineNames(lines + [l]) == LineNames(lines) + if IsCode(l) then TokenNames(Tokens(l, 0)) else {}
  {
    hide TokenNames, IsCode, Tokens;
    assert forall x :: x in lines + [l] <==> x in lines || x == l;
  }

  lemma NamesStep(directives: seq<string>, d: string)
    ensures Names(directives + [d]) == Names(directives) + CodeNames(d)
  {
    hide CodeNames;
    assert forall x :: x in directives + [d] <==> x in directives || x == d;
  }

  /** Reading a blob line by line names nothing that reading it whole does not name. */
  lemma LinesWithinBlob(blob: string)
    ensures CodeNames(blob) <= BlobNames(blob)
  {
    forall n | n in CodeNames(blob) ensures n in BlobNames(blob) {
      hide FileName, IsCode, Tokens, Lines, IsBlank;
      var l :| l in Lines(blob, 0) && IsCode(l) && n in TokenNames(Tokens(l, 0));
      var t :| t in Tokens(l, 0) && FileName(t) == n;
      var a, b := LineIsSlice(blob, 0, l);
      NewlineIsBlank(blob, b);
      TokensWithin(blob, a, b, t);
    }
  }

  lemma NewlineIsBlank(s: string, i: nat)
    ensures i < |s| && s[i] == '\n' ==> IsBlank(s[i])
  {
  }

  /** The directives that refer to none of the names, in their order. */
  function Kept(directives: seq<string>, names: set<string>): seq<string> {
    if directives == [] then []
    else
      var n := |directives| - 1;
      Kept(directives[..n], names) + if BlobNames(directives[n]) !! names then [directives[n]] else []
  }

  lemma {:induction false} KeptMember(directives: seq<string>, names: set<string>, d: string)
    ensures d in Kept(directives, names) <==> d in directives && BlobNames(d) !! names
  {
    hide BlobNames;
    if directives != [] {
      var n := |directives| - 1;
      KeptMember(directives[..n], names, d);
      assert directives == directives[..n] + [directives[n]];
    }
  }

  /** What is left after dropping names refers to none of them, and to nothing new. */
  lemma KeptNames(directives: seq<string>, names: set<string>)
    ensures Names(Kept(directives, names)) <= Names(directives) - names
  {
    hide BlobNames, CodeNames, Kept;
    forall b | b in Names(Kept(directives, names)) ensures b in Names(directives) - names {
      var d :| d in Kept(directives, names) && b in CodeNames(d);
      KeptMember(directives, names, d);
      LinesWithinBlob(d);
    }
  }

  lemma {:induction false} KeptAll(directives: seq<string>)
    ensures Kept(directives, {}) == directives
  {
    hide BlobNames;
    if directives != [] {
      var n := |directives| - 1;
      KeptAll(directives[..n]);
      assert directives == directives[..n] + [directives[n]];
    }
  }

  // ----- byte order of names

  predicate Less(a: string, b: string) {
    b != "" && (a == "" || a[0] < b[0] || (a[0] == b[0] && Less(a[1..], b[1..])))
  }

  lemma {:induction false} LessTransitive(a: string, b: string, c: string)
    requires Less(a, b) && Less(b, c)
    ensures Less(a, c)
  {
    if a != "" && a[0] == b[0] && b[0] == c[0] { LessTransitive(a[1..], b[1..], c[1..]); }
  }

  lemma {:induction false} LessTotal(a: string, b: string)
    ensures a != b ==> Less(a, b) != Less(b, a)
    ensures a == b ==> !Less(a, b)
  {
    if a != "" && b != "" && a[0] == b[0] {
      LessTotal(a[1..], b[1..]);
      assert a == [a[0]] + a[1..] && b == [b[0]] + b[1..];
    }
  }

  ghost predicate Ascending(s: seq<string>) {
    forall i, j :: 0 <= i < j < |s| ==> Less(s[i], s[j])
  }

  ghost function Elements(s: seq<string>): set<string> { set x | x in s }

  lemma ElementsStep(s: seq<string>, x: string)
    ensures Elements(s + [x]) == Elements(s) + {x}
  {
    assert forall y :: y in s + [x] <==> y in s || y == x;
  }

  /** Byte order: at the first difference the smaller byte decides, and a prefix comes first. */
  lemma {:induction false} LessMeans(a: string, b: string, n: nat)
    requires n <= |a| && n <= |b| && a[..n] == b[..n] && (n < |a| && n < |b| ==> a[n] != b[n])
    requires n == |a| || n == |b| || a[n] != b[n]
    ensures Less(a, b) <==> n < |b| && (n == |a| || a[n] < b[n])
  {
    if n > 0 {
      assert a[0] == a[..n][0] && b[0] == b[..n][0];
      assert a[1..][..n - 1] == a[..n][1..] && b[1..][..n - 1] == b[..n][1..];
      LessMeans(a[1..], b[1..], n - 1);
    }
  }

  // ----- the names, said without the functions that find them

  lemma {:induction false} SlashAhead(p: string, n: string)
    requires n != "" && '/' !in n && (p == "" || p[|p| - 1] == '/')
    ensures AfterSlash(p + n) == n
    decreases |n|
  {
    var k := |n| - 1;
    assert (p + n)[..|p + n| - 1] == p + n[..k];
    assert (p + n)[|p + n| - 1] == n[k];
    if k > 0 { SlashAhead(p, n[..k]); } else { assert p + n[..k] == p; }
  }

  lemma {:induction false} NoQuotesStay(s: string)
    requires s == "" || (!IsQuote(s[0]) && !IsQuote(s[|s| - 1]))
    ensures TrimQuotes(s) == s
  {
  }

  /** The name of a file is what follows the last slash of its path. */
  lemma FileNameIs(dir: string, name: string)
    requires name != "" && '/' !in name && (dir == "" || dir[|dir| - 1] == '/')
    requires !IsQuote((dir + name)[0]) && !IsQuote(name[|name| - 1])
    ensures FileName(dir + name) == name
  {
    hide IsQuote;
    var p := dir + name;
    assert p[|p| - 1] == name[|name| - 1];
    NoQuotesStay(p);
    SlashAhead(dir, name);
  }

  /** `d[a..b]` is a line of `d`. */
  ghost predicate IsLine(d: string, a: nat, b: nat) {
    && a <= b <= |d| && (forall k :: a <= k < b ==> d[k] != '\n')
    && (a == 0 || d[a - 1] == '\n') && (b == |d| || d[b] == '\n')
  }

  lemma {:induction false} LineEndIs(s: string, i: nat, j: nat)
    requires i <= j <= |s| && (forall k :: i <= k < j ==> s[k] != '\n') && (j == |s| || s[j] == '\n')
    ensures LineEnd(s, i) == j
    decreases j - i
  {
    if i < j { LineEndIs(s, i + 1, j); }
  }

  lemma {:induction false} LineEndClear(s: string, i: nat, k: nat)
    requires i <= |s| && i <= k < LineEnd(s, i)
    ensures s[k] != '\n'
    decreases |s| - i
  {
    if i < |s| && s[i] != '\n' && i < k { LineEndClear(s, i + 1, k); }
  }

  lemma {:induction false} LinesComplete(d: string, i: nat, a: nat, b: nat)
    requires i <= a && IsLine(d, a, b) && (i == 0 || d[i - 1] == '\n')
    ensures i <= |d| && d[a..b] in Lines(d, i)
    decreases |d| - i
  {
    var j := LineEnd(d, i);
    if a == i {
      LineEndIs(d, i, b);
    } else {
      if a <= j { LineEndClear(d, i, a - 1); }
      LinesComplete(d, j + 1, a, b);
    }
  }

  lemma {:induction false} LinesSound(d: string, i: nat, l: string) returns (a: nat, b: nat)
    requires i <= |d| && l in Lines(d, i) && (i == 0 || d[i - 1] == '\n')
    ensures IsLine(d, a, b) && l == d[a..b]
    decreases |d| - i
  {
    var j := LineEnd(d, i);
    if l == d[i..j] {
      a, b := i, j;
      forall k | i <= k < j ensures d[k] != '\n' { LineEndClear(d, i, k); }
    } else {
      a, b := LinesSound(d, j + 1, l);
    }
  }

  /** The first character of the line that is no white space, if there is one, starts no comment. */
  ghost predicate HasCode(line: string) {
    exists j :: 0 <= j < |line| && !IsBlank(line[j]) && line[j] != '#' && forall i :: 0 <= i < j ==> IsBlank(line[i])
  }

  lemma {:induction false} CodeMeans(line: string)
    ensures IsCode(line) <==> HasCode(line)
  {
    hide IsBlank;
    if line == "" {
    } else if IsBlank(line[0]) {
      CodeMeans(line[1..]);
      if HasCode(line) {
        var j :| 0 <= j < |line| && !IsBlank(line[j]) && line[j] != '#' && forall i :: 0 <= i < j ==> IsBlank(line[i]);
        assert line[1..][j - 1] == line[j];
      }
      if HasCode(line[1..]) {
        var j :| 0 <= j < |line| - 1 && !IsBlank(line[1..][j]) && line[1..][j] != '#' && forall i :: 0 <= i < j ==> IsBlank(line[1..][i]);
        assert forall i :: 0 < i < j + 1 ==> line[i] == line[1..][i - 1];
        assert line[j + 1] == line[1..][j];
      }
    } else {
      assert HasCode(line) <==> line[0] != '#';
    }
  }

  /** An operator of the line refers to a file of this name. */
  ghost predicate LineMentions(line: string, name: string) {
    exists p: nat, k: nat, x: nat, y: nat :: Refers(line, p, k, x, y) && FileName(line[x..y]) == name
  }

  ghost predicate Mentions(d: string, name: string) {
    exists a: nat, b: nat :: IsLine(d, a, b) && HasCode(d[a..b]) && LineMentions(d[a..b], name)
  }

  lemma LineNamed(line: string, name: string)
    requires name != "" && name != "."
    ensures name in TokenNames(Tokens(line, 0)) <==> LineMentions(line, name)
  {
    hide FileName, Tokens, OpEnd, IsBlank, IsQuote;
    if name in TokenNames(Tokens(line, 0)) {
      var t :| t in Tokens(line, 0) && FileName(t) == name;
      TokensExact(line, t);
    }
    if LineMentions(line, name) {
      var p: nat, k: nat, x: nat, y: nat :| Refers(line, p, k, x, y) && FileName(line[x..y]) == name;
      TokensExact(line, line[x..y]);
    }
  }

  /** The names of the directives are those their code lines mention, however many lines and files there are. */
  lemma {:induction false} NamesExact(directives: seq<string>, name: string)
    requires name != "" && name != "."
    ensures name in Names(directives) <==> exists d :: d in directives && Mentions(d, name)
  {
    hide TokenNames, Tokens, Lines, IsCode, HasCode, LineMentions, IsLine;
    if name in Names(directives) {
      var d :| d in directives && name in CodeNames(d);
      var l :| l in Lines(d, 0) && IsCode(l) && name in TokenNames(Tokens(l, 0));
      var a, b := LinesSound(d, 0, l);
      CodeMeans(l);
      LineNamed(l, name);
      LineWithin(d, a, b);
      assert Mentions(d, name);
    }
    if d :| d in directives && Mentions(d, name) {
      MentionedNamed(d, name);
    }
  }

  lemma LineWithin(d: string, a: nat, b: nat)
    requires IsLine(d, a, b)
    ensures a <= b <= |d|
  {
  }

  lemma MentionedNamed(d: string, name: string)
    requires name != "" && name != "." && Mentions(d, name)
    ensures name in CodeNames(d)
  {
    hide TokenNames, Tokens, Lines, IsCode, HasCode, LineMentions;
    var a: nat, b: nat :| IsLine(d, a, b) && HasCode(d[a..b]) && LineMentions(d[a..b], name);
    LinesComplete(d, 0, a, b);
    CodeMeans(d[a..b]);
    LineNamed(d[a..b], name);
  }
}
