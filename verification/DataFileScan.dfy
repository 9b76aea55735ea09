/** Collecting the names of data files and dropping the directives that refer to some. */
module DataFileScan {
  import opened FromFile
  import opened DataFiles

  /** Where `x` goes in an ascending list. */
  method Insert(s: seq<string>, x: string) returns (r: seq<string>)
    requires Ascending(s) && x !in s
    ensures Ascending(r) && Elements(r) == Elements(s) + {x}
  {
    var i := 0;
    while i < |s| && Less(s[i], x)
      invariant 0 <= i <= |s|
      invariant forall k :: 0 <= k < i ==> Less(s[k], x)
    {
      i := i + 1;
    }
    if i < |s| { LessTotal(s[i], x); }
    forall k | i < k < |s| ensures Less(x, s[k]) { LessTransitive(x, s[i], s[k]); }
    r := s[..i] + [x] + s[i..];
    assert s == s[..i] + s[i..];
  }

  /** `sort.Strings` of distinct names. */
  method SortStrings(s: seq<string>) returns (r: seq<string>)
    requires forall i, j :: 0 <= i < j < |s| ==> s[i] != s[j]
    ensures Ascending(r) && Elements(r) == Elements(s)
  {
    r := [];
    for i := 0 to |s|
      invariant Ascending(r) && Elements(r) == Elements(s[..i])
    {
      assert s[i] !in s[..i];
      assert s[i] !in Elements(r);
      r := Insert(r, s[i]);
      assert s[..i + 1] == s[..i] + [s[i]];
    }
    assert s[..|s|] == s;
  }

  /** The names of tokens not seen before. */
  method AddTokens(tokens: seq<string>, before: seq<string>) returns (out: seq<string>)
    requires forall i, j :: 0 <= i < j < |before| ==> before[i] != before[j]
    ensures forall i, j :: 0 <= i < j < |out| ==> out[i] != out[j]
    ensures Elements(out) == Elements(before) + TokenNames(tokens)
  {
    hide FileName, Named, TokenNames;
    NoNames();
    out := before;
    for i := 0 to |tokens|
      invariant forall i, j :: 0 <= i < j < |out| ==> out[i] != out[j]
      invariant Elements(out) == Elements(before) + TokenNames(tokens[..i])
    {
      var base := FileName(tokens[i]);
      assert tokens[..i + 1] == tokens[..i] + [tokens[i]];
      TokenNamesStep(tokens[..i], tokens[i]);
      if Named(base) && base !in out {
        ElementsStep(out, base);
        out := out + [base];
      }
    }
    assert tokens[..|tokens|] == tokens;
  }

  method AddLines(lines: seq<string>, before: seq<string>) returns (out: seq<string>)
    requires forall i, j :: 0 <= i < j < |before| ==> before[i] != before[j]
    ensures forall i, j :: 0 <= i < j < |out| ==> out[i] != out[j]
    ensures Elements(out) == Elements(before) + LineNames(lines)
  {
    hide IsCode, Tokens, TokenNames, LineNames;
    NoNames();
    out := before;
    for i := 0 to |lines|
      invariant forall i, j :: 0 <= i < j < |out| ==> out[i] != out[j]
      invariant Elements(out) == Elements(before) + LineNames(lines[..i])
    {
      assert lines[..i + 1] == lines[..i] + [lines[i]];
      LineNamesStep(lines[..i], lines[i]);
      if IsCode(lines[i]) {
        out := AddTokens(Tokens(lines[i], 0), out);
      }
    }
    assert lines[..|lines|] == lines;
  }

  method ScanBasenames(directives: seq<string>) returns (r: seq<string>)
    ensures Ascending(r) && Elements(r) == Names(directives)
  {
    hide Lines, LineNames, Names;
    NoNames();
    var out := [];
    for i := 0 to |directives|
      invariant forall i, j :: 0 <= i < j < |out| ==> out[i] != out[j]
      invariant Elements(out) == Names(directives[..i])
    {
      assert directives[..i + 1] == directives[..i] + [directives[i]];
      NamesStep(directives[..i], directives[i]);
      out := AddLines(Lines(directives[i], 0), out);
    }
    assert directives[..|directives|] == directives;
    r := SortStrings(out);
  }

  method References(blob: string, names: set<string>) returns (found: bool)
    ensures found <==> !(BlobNames(blob) !! names)
  {
    hide FileName, Tokens;
    var tokens := Tokens(blob, 0);
    for i := 0 to |tokens|
      invariant forall k :: 0 <= k < i ==> FileName(tokens[k]) !in names
    {
      if FileName(tokens[i]) in names {
        assert FileName(tokens[i]) in BlobNames(blob);
        return true;
      }
    }
    return false;
  }

  method DropReferences(directives: seq<string>, names: set<string>) returns (r: seq<string>)
    ensures r == Kept(directives, names)
  {
    hide BlobNames;
    if names == {} {
      KeptAll(directives);
      return directives;
    }
    r := [];
    for i := 0 to |directives|
      invariant r == Kept(directives[..i], names)
    {
      assert directives[..i + 1] == directives[..i] + [directives[i]];
      assert directives[..i + 1][..i] == directives[..i];
      var found := References(directives[i], names);
      if !found { r := r + [directives[i]]; }
    }
    assert directives[..|directives|] == directives;
  }
}
