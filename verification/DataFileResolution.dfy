/** From directives to the bodies of the data files they name, when a WAF is published and when
    a probe is assembled. */
module DataFileResolution {
  import opened Text
  import opened DataFiles
  import opened DataFileScan

  type Body = seq<bv8>

  const MAX_RAW_BYTES := 2 * 1024 * 1024

  // ----- the raw size of a set of files

  ghost function SizeOf(files: map<string, Body>, keys: set<string>): nat
    requires keys <= files.Keys
  {
    if keys == {} then 0
    else
      var k :| k in keys;
      |files[k]| + SizeOf(files, keys - {k})
  }

  ghost function Size(files: map<string, Body>): nat { SizeOf(files, files.Keys) }

  lemma {:induction false} SizeOfTake(files: map<string, Body>, keys: set<string>, k: string)
    requires k in keys && keys <= files.Keys
    ensures SizeOf(files, keys) == |files[k]| + SizeOf(files, keys - {k})
    decreases |keys|
  {
    var c :| c in keys && SizeOf(files, keys) == |files[c]| + SizeOf(files, keys - {c});
    if c != k {
      SizeOfTake(files, keys - {c}, k);
      SizeOfTake(files, keys - {k}, c);
      assert keys - {c} - {k} == keys - {k} - {c};
    }
  }

  lemma {:induction false} SizeOfSame(f: map<string, Body>, g: map<string, Body>, keys: set<string>)
    requires keys <= f.Keys && keys <= g.Keys && forall k :: k in keys ==> f[k] == g[k]
    ensures SizeOf(f, keys) == SizeOf(g, keys)
  {
    if keys != {} {
      var k :| k in keys;
      SizeOfTake(f, keys, k);
      SizeOfTake(g, keys, k);
      SizeOfSame(f, g, keys - {k});
    }
  }

  lemma SizeAdd(files: map<string, Body>, k: string, body: Body)
    requires k !in files
    ensures Size(files[k := body]) == Size(files) + |body|
  {
    var more := files[k := body];
    SizeOfTake(more, more.Keys, k);
    assert more.Keys - {k} == files.Keys;
    SizeOfSame(files, more, files.Keys);
  }

  // ----- where the body of a name comes from

  datatype Fault =
    | LookupFailed(base: string) | OverrideNotAllowed(base: string) | BodyFailed(base: string)
    | PackMissing(base: string) | NotFound(base: string) | NotReady(base: string)
    | RefsNotReady(reason: string) | TooLarge(raw: nat)

  /** What one name comes to: a body, nothing (which the policy may forgive), or a failure. */
  datatype Fate = Found(body: Body) | Missing(fault: Fault) | Broken(fault: Fault)

  datatype Lookup<+T> = Hit(value: T) | Absent | Failed

  /** A ready PhraseList: labelled as stock pack, annotated as an allowed override, and its body
      unless reading it fails. */
  datatype PhraseList = PhraseList(stock: bool, allowed: bool, body: Option<Body>)

  /** What publishing a WAF reads from its namespace and from the operator's embedded pack. */
  datatype Sources = Sources(
    crs: string -> bool, pack: string -> Option<Body>,
    phraseLists: string -> Lookup<PhraseList>, ipLists: string -> Lookup<Option<Body>>)

  function StockFate(s: Sources, base: string): Fate {
    match s.phraseLists(base)
    case Failed => Broken(LookupFailed(base))
    case Hit(l) =>
      if !l.stock && !l.allowed then Broken(OverrideNotAllowed(base))
      else if l.body.None? then Broken(BodyFailed(base))
      else Found(l.body.value)
    case Absent =>
      var b := s.pack(base);
      if b.None? || b.value == [] then Broken(PackMissing(base)) else Found(b.value)
  }

  function CustomFate(s: Sources, base: string): Fate {
    match s.phraseLists(base)
    case Failed => Broken(LookupFailed(base))
    case Hit(l) => if l.body.None? then Broken(LookupFailed(base)) else Found(l.body.value)
    case Absent =>
      match s.ipLists(base)
      case Failed => Broken(LookupFailed(base))
      case Hit(b) => if b.None? then Broken(LookupFailed(base)) else Found(b.value)
      case Absent => Missing(NotFound(base))
  }

  function PublishFate(s: Sources, base: string): Fate {
    if s.crs(base) then StockFate(s, base) else CustomFate(s, base)
  }

  /** What assembling a probe reads: bodies given with the request, then a provider if there is
      one, which answers a body and whether its list is ready. */
  datatype Provider = Provider(lookup: string -> Lookup<(Body, bool)>)

  function ProbeFate(overrides: map<string, Body>, provider: Option<Provider>, base: string): Fate {
    if base in overrides then Found(overrides[base])
    else if provider.None? then Missing(NotFound(base))
    else
      match provider.value.lookup(base)
      case Failed => Broken(LookupFailed(base))
      case Absent => Missing(NotFound(base))
      case Hit(v) => if v.1 then Found(v.0) else Missing(NotReady(base))
  }

  // ----- the resolutions

  datatype Resolved = Resolved(
    files: map<string, Body>, dropped: seq<string>, raw: nat, directives: seq<string>)

  ghost function FilesOf(fate: string -> Fate, names: set<string>): map<string, Body> {
    map b | b in names && fate(b).Found? :: fate(b).body
  }

  ghost function MissingOf(fate: string -> Fate, names: set<string>): set<string> {
    set b | b in names && fate(b).Missing?
  }

  /** The resolution stops at a name with this fate: one that failed when `broken` is
      set, one for which nothing was found when `missing` is. */
  predicate Stops(f: Fate, broken: bool, missing: bool) {
    (broken && f.Broken?) || (missing && f.Missing?)
  }

  ghost predicate Stopped(fate: string -> Fate, names: set<string>, broken: bool, missing: bool) {
    exists b :: b in names && Stops(fate(b), broken, missing)
  }

  /** `fault` is that of the first name, in byte order, at which the resolution stops. */
  ghost predicate IsFirst(fate: string -> Fate, names: set<string>, broken: bool, missing: bool, fault: Fault) {
    exists b :: b in names && Stops(fate(b), broken, missing) && fault == fate(b).fault
                && forall c :: c in names && Stops(fate(c), broken, missing) ==> c == b || Less(b, c)
  }

  lemma FilesOfStep(fate: string -> Fate, names: set<string>, b: string)
    ensures FilesOf(fate, names + {b}) ==
            if fate(b).Found? then FilesOf(fate, names)[b := fate(b).body] else FilesOf(fate, names)
  {
  }

  lemma MissingOfStep(fate: string -> Fate, names: set<string>, b: string)
    ensures MissingOf(fate, names + {b}) ==
            if fate(b).Missing? then MissingOf(fate, names) + {b} else MissingOf(fate, names)
  {
  }

  lemma StopsFirst(fate: string -> Fate, bases: seq<string>, i: nat, broken: bool, missing: bool)
    requires Ascending(bases) && i < |bases| && Stops(fate(bases[i]), broken, missing)
    requires forall k :: 0 <= k < i ==> !Stops(fate(bases[k]), broken, missing)
    ensures IsFirst(fate, Elements(bases), broken, missing, fate(bases[i]).fault)
    ensures Stopped(fate, Elements(bases), broken, missing)
  {
    hide Less, Stops;
    assert bases[i] in Elements(bases);
  }

  lemma AscendingStep(bases: seq<string>, i: nat, some: seq<string>)
    requires Ascending(bases) && i < |bases| && Ascending(some) && Elements(some) <= Elements(bases[..i])
    ensures Ascending(some + [bases[i]])
  {
    hide Less;
    forall k | 0 <= k < |some| ensures Less(some[k], bases[i]) {
      assert some[k] in Elements(some);
      assert some[k] in bases[..i];
    }
  }

  ghost predicate WithinLimit(r: Result<Resolved, Fault>, files: map<string, Body>, missing: set<string>,
                              directives: seq<string>) {
    if Size(files) > MAX_RAW_BYTES then r == Err(TooLarge(Size(files)))
    else
      && r.Ok? && r.value.files == files && r.value.raw == Size(files)
      && Ascending(r.value.dropped) && Elements(r.value.dropped) == missing
      && r.value.directives == Kept(directives, missing)
  }

  ghost function Publishing(s: Sources): string -> Fate { b => PublishFate(s, b) }

  /** Broken names come before missing ones, missing ones before the size. */
  ghost predicate PublishOutcome(s: Sources, ignore: bool, directives: seq<string>, r: Result<Resolved, Fault>) {
    var fate, names := Publishing(s), Names(directives);
    if Stopped(fate, names, true, false) then r.Err? && IsFirst(fate, names, true, false, r.error)
    else if !ignore && Stopped(fate, names, false, true) then
      r.Err? && IsFirst(fate, names, false, true, r.error)
    else WithinLimit(r, FilesOf(fate, names), MissingOf(fate, names), directives)
  }

  /** The loop over the names: a body, a missing name, or the first broken one. */
  method FindAll(s: Sources, bases: seq<string>)
    returns (files: map<string, Body>, missing: seq<string>, fault: Option<Fault>)
    requires Ascending(bases)
    ensures fault.Some? <==> Stopped(Publishing(s), Elements(bases), true, false)
    ensures fault.Some? ==> IsFirst(Publishing(s), Elements(bases), true, false, fault.value)
    ensures fault.None? ==> files == FilesOf(Publishing(s), Elements(bases))
    ensures fault.None? ==> Ascending(missing) && Elements(missing) == MissingOf(Publishing(s), Elements(bases))
  {
    hide PublishFate, FilesOf, MissingOf, Less, IsFirst, Ascending;
    files, missing, fault := map[], [], None;
    NothingOf(Publishing(s));
    for i := 0 to |bases|
      invariant forall k :: 0 <= k < i ==> !PublishFate(s, bases[k]).Broken?
      invariant files == FilesOf(Publishing(s), Elements(bases[..i]))
      invariant Ascending(missing) && Elements(missing) == MissingOf(Publishing(s), Elements(bases[..i]))
    {
      var base := bases[i];
      ElementsNext(bases, i);
      FilesOfStep(Publishing(s), Elements(bases[..i]), base);
      MissingOfStep(Publishing(s), Elements(bases[..i]), base);
      match PublishFate(s, base)
      case Broken(f) =>
        StopsFirst(Publishing(s), bases, i, true, false);
        fault := Some(f);
        return;
      case Found(body) =>
        files := files[base := body];
      case Missing(_) =>
        MissingWithin(Publishing(s), Elements(bases[..i]));
        AscendingStep(bases, i, missing);
        ElementsStep(missing, base);
        missing := missing + [base];
    }
    assert bases[..|bases|] == bases;
  }

  lemma NothingOf(fate: string -> Fate)
    ensures FilesOf(fate, {}) == map[] && MissingOf(fate, {}) == {} && Ascending([]) && Elements([]) == {}
  {
  }

  lemma MissingWithin(fate: string -> Fate, names: set<string>)
    ensures MissingOf(fate, names) <= names
  {
  }

  lemma ElementsNext(s: seq<string>, i: nat)
    requires i < |s|
    ensures Elements(s[..i + 1]) == Elements(s[..i]) + {s[i]}
  {
    assert s[..i + 1] == s[..i] + [s[i]];
    ElementsStep(s[..i], s[i]);
  }

  method RawBytes(files: map<string, Body>) returns (raw: nat)
    ensures raw == Size(files)
  {
    raw := 0;
    var rest := files.Keys;
    while rest != {}
      invariant rest <= files.Keys && raw + SizeOf(files, rest) == Size(files)
      decreases |rest|
    {
      var k :| k in rest;
      SizeOfTake(files, rest, k);
      raw := raw + |files[k]|;
      rest := rest - {k};
    }
  }

  /** `refs` is the failure of the checks on the lists a RuleSet refers to, if they fail. */
  method DiscoverAndResolve(refs: Option<Fault>, s: Sources, ignore: bool, directives: seq<string>)
    returns (r: Result<Resolved, Fault>)
    ensures refs.Some? ==> r == Err(refs.value)
    ensures refs.None? ==> PublishOutcome(s, ignore, directives, r)
  {
    hide FilesOf, MissingOf, Names, Kept, Size, IsFirst, Ascending, PublishFate;
    if refs.Some? { return Err(refs.value); }
    var bases := ScanBasenames(directives);
    var files, missing, fault := FindAll(s, bases);
    if fault.Some? { return Err(fault.value); }
    NamesMissing(s, directives, missing);
    if missing != [] && !ignore {
      FirstMissing(s, directives, missing);
      return Err(PublishFate(s, missing[0]).fault);
    }
    var raw := RawBytes(files);
    if raw > MAX_RAW_BYTES { return Err(TooLarge(raw)); }
    var kept := DropReferences(directives, set b | b in missing);
    r := Ok(Resolved(files, missing, raw, kept));
  }

  lemma NamesMissing(s: Sources, directives: seq<string>, missing: seq<string>)
    requires Elements(missing) == MissingOf(Publishing(s), Names(directives))
    ensures (missing != []) == Stopped(Publishing(s), Names(directives), false, true)
    ensures forall b :: b in missing ==> PublishFate(s, b).Missing?
  {
    hide PublishFate, Names;
    assert forall b :: b in missing <==> b in Elements(missing);
    if missing != [] { assert missing[0] in Elements(missing); }
    if Stopped(Publishing(s), Names(directives), false, true) {
      var b :| b in Names(directives) && Stops(Publishing(s)(b), false, true);
      assert b in MissingOf(Publishing(s), Names(directives));
    }
  }

  /** The first missing name is the first in byte order. */
  lemma FirstMissing(s: Sources, directives: seq<string>, missing: seq<string>)
    requires Ascending(missing) && missing != []
    requires Elements(missing) == MissingOf(Publishing(s), Names(directives))
    ensures PublishFate(s, missing[0]).Missing?
    ensures IsFirst(Publishing(s), Names(directives), false, true, PublishFate(s, missing[0]).fault)
  {
    hide PublishFate, Names, Less;
    NamesMissing(s, directives, missing);
    assert missing[0] in Elements(missing);
    forall c | c in Names(directives) && PublishFate(s, c).Missing?
      ensures c == missing[0] || Less(missing[0], c)
    {
      assert c in Elements(missing);
      var k :| 0 <= k < |missing| && missing[k] == c;
    }
  }

  // ----- assembling a probe

  ghost function Probing(overrides: map<string, Body>, provider: Option<Provider>): string -> Fate {
    b => ProbeFate(overrides, provider, b)
  }

  /** Given bodies are injected whether or not a directive names them. */
  ghost predicate ProbeOutcome(overrides: map<string, Body>, provider: Option<Provider>, ignore: bool,
                               directives: seq<string>, r: Result<Resolved, Fault>) {
    var fate, names := Probing(overrides, provider), Names(directives);
    if Stopped(fate, names, true, !ignore) then r.Err? && IsFirst(fate, names, true, !ignore, r.error)
    else WithinLimit(r, FilesOf(fate, names) + overrides, MissingOf(fate, names), directives)
  }

  method LookUpAll(overrides: map<string, Body>, provider: Option<Provider>, ignore: bool, bases: seq<string>)
    returns (files: map<string, Body>, dropped: seq<string>, raw: nat, fault: Option<Fault>)
    requires Ascending(bases)
    ensures fault.Some? <==> Stopped(Probing(overrides, provider), Elements(bases), true, !ignore)
    ensures fault.Some? ==> IsFirst(Probing(overrides, provider), Elements(bases), true, !ignore, fault.value)
    ensures fault.None? ==> files == FilesOf(Probing(overrides, provider), Elements(bases)) && raw == Size(files)
    ensures fault.None? ==>
              && Ascending(dropped)
              && Elements(dropped) == MissingOf(Probing(overrides, provider), Elements(bases))
  {
    hide ProbeFate, FilesOf, MissingOf, Less, IsFirst, Ascending, Size;
    ghost var fate := Probing(overrides, provider);
    files, dropped, raw, fault := map[], [], 0, None;
    NothingOf(fate);
    NoSize();
    for i := 0 to |bases|
      invariant forall k :: 0 <= k < i ==> !Stops(fate(bases[k]), true, !ignore)
      invariant files == FilesOf(fate, Elements(bases[..i])) && raw == Size(files)
      invariant Ascending(dropped) && Elements(dropped) == MissingOf(fate, Elements(bases[..i]))
    {
      var base := bases[i];
      ElementsNext(bases, i);
      FilesOfStep(fate, Elements(bases[..i]), base);
      MissingOfStep(fate, Elements(bases[..i]), base);
      match ProbeFate(overrides, provider, base)
      case Found(body) =>
        NotFoundBefore(fate, bases, i);
        SizeAdd(files, base, body);
        files := files[base := body];
        raw := raw + |body|;
      case Missing(f) =>
        if !ignore {
          StopsFirst(fate, bases, i, true, !ignore);
          fault := Some(f);
          return;
        }
        MissingWithin(fate, Elements(bases[..i]));
        AscendingStep(bases, i, dropped);
        ElementsStep(dropped, base);
        dropped := dropped + [base];
      case Broken(f) =>
        StopsFirst(fate, bases, i, true, !ignore);
        fault := Some(f);
        return;
    }
    assert bases[..|bases|] == bases;
  }

  lemma NoSize()
    ensures Size(map[]) == 0
  {
  }

  lemma NotFoundBefore(fate: string -> Fate, bases: seq<string>, i: nat)
    requires Ascending(bases) && i < |bases|
    ensures bases[i] !in FilesOf(fate, Elements(bases[..i]))
  {
    hide Less;
    forall k | 0 <= k < i ensures bases[k] != bases[i] { LessTotal(bases[k], bases[i]); }
  }

  method AddOverrides(overrides: map<string, Body>, files: map<string, Body>, raw: nat)
    returns (all: map<string, Body>, total: nat)
    requires raw == Size(files) && forall k :: k in overrides && k in files ==> files[k] == overrides[k]
    ensures all == files + overrides && total == Size(all)
  {
    hide Size;
    all, total := files, raw;
    var rest := overrides.Keys;
    while rest != {}
      invariant rest <= overrides.Keys && total == Size(all)
      invariant all == files + map k | k in overrides && k !in rest :: overrides[k]
      decreases |rest|
    {
      var k :| k in rest;
      rest := rest - {k};
      if k !in all {
        SizeAdd(all, k, overrides[k]);
        total := total + |overrides[k]|;
        all := all[k := overrides[k]];
      }
    }
  }

  method ResolveDataFiles(overrides: map<string, Body>, provider: Option<Provider>, ignore: bool,
                          directives: seq<string>)
    returns (r: Result<Resolved, Fault>)
    ensures ProbeOutcome(overrides, provider, ignore, directives, r)
  {
    hide FilesOf, MissingOf, Names, Kept, Size, IsFirst, Ascending, ProbeFate;
    var bases := ScanBasenames(directives);
    var found, dropped, part, fault := LookUpAll(overrides, provider, ignore, bases);
    if fault.Some? { return Err(fault.value); }
    OverridesWin(overrides, provider, Names(directives));
    var files, raw := AddOverrides(overrides, found, part);
    if raw > MAX_RAW_BYTES { return Err(TooLarge(raw)); }
    var kept := DropReferences(directives, set b | b in dropped);
    r := Ok(Resolved(files, dropped, raw, kept));
  }

  lemma OverridesWin(overrides: map<string, Body>, provider: Option<Provider>, names: set<string>)
    ensures var files := FilesOf(Probing(overrides, provider), names);
            forall k :: k in overrides && k in files ==> files[k] == overrides[k]
  {
  }

  // ----- nothing that is left names a file without a body

  ghost predicate Closed(r: Resolved, directives: seq<string>) {
    && Names(r.directives) <= r.files.Keys
    && Names(r.directives) !! Elements(r.dropped)
    && r.raw == Size(r.files) <= MAX_RAW_BYTES
    && (r.dropped == [] ==> r.directives == directives)
  }

  lemma KeptClosed(fate: string -> Fate, files: map<string, Body>, r: Resolved, directives: seq<string>)
    requires !Stopped(fate, Names(directives), true, false)
    requires FilesOf(fate, Names(directives)).Keys <= files.Keys
    requires WithinLimit(Ok(r), files, MissingOf(fate, Names(directives)), directives)
    ensures Closed(r, directives)
  {
    hide Names, Kept, Size, Ascending;
    var missing := MissingOf(fate, Names(directives));
    KeptNames(directives, missing);
    if r.dropped == [] { KeptAll(directives); assert missing == {}; }
  }

  lemma PublishClosed(s: Sources, ignore: bool, directives: seq<string>, r: Resolved)
    requires PublishOutcome(s, ignore, directives, Ok(r))
    ensures Closed(r, directives)
  {
    hide Names, Kept, Size, Ascending, FilesOf, MissingOf, PublishFate, Closed;
    KeptClosed(Publishing(s), r.files, r, directives);
  }

  lemma ProbeClosed(overrides: map<string, Body>, provider: Option<Provider>, ignore: bool,
                    directives: seq<string>, r: Resolved)
    requires ProbeOutcome(overrides, provider, ignore, directives, Ok(r))
    ensures Closed(r, directives)
  {
    hide Names, Kept, Size, Ascending, FilesOf, MissingOf, ProbeFate, Closed;
    KeptClosed(Probing(overrides, provider), r.files, r, directives);
  }

  // ----- whose bodies

  /** A name of the stock pack has the body of a ready PhraseList that is stock or an allowed override, and
      the embedded one only if there is no ready list; any other name that of a PhraseList, else of an IPList. */
  ghost predicate ComesFrom(s: Sources, base: string, body: Body) {
    match s.phraseLists(base)
    case Failed => false
    case Hit(l) => l.body == Some(body) && (s.crs(base) ==> l.stock || l.allowed)
    case Absent => if s.crs(base) then s.pack(base) == Some(body) && body != [] else s.ipLists(base) == Hit(Some(body))
  }

  /** Whoever publishes has for every name the right body, or nobody has one and it may be dropped; so a
      list that overrides a stock file without leave makes the resolution fail. */
  lemma {:induction false} PublishBodies(s: Sources, ignore: bool, directives: seq<string>, r: Resolved, base: string)
    requires PublishOutcome(s, ignore, directives, Ok(r))
    ensures base in Names(directives) ==> base in r.files || base in Elements(r.dropped)
    ensures base in r.files ==> base in Names(directives) && ComesFrom(s, base, r.files[base])
    ensures base in Elements(r.dropped) ==>
              ignore && !s.crs(base) && s.phraseLists(base) == Absent && s.ipLists(base) == Absent
    ensures r.raw <= 2 * 1024 * 1024
  {
    hide Names, Kept, Size, Ascending, IsFirst;
    assert base in Names(directives) ==> !Stops(Publishing(s)(base), true, false);
    assert base in Names(directives) && !ignore ==> !Stops(Publishing(s)(base), false, true);
  }

  /** A probe has the bodies given with it, and else those its provider calls ready. */
  lemma {:induction false} ProbeBodies(overrides: map<string, Body>, provider: Option<Provider>, ignore: bool,
                                       directives: seq<string>, r: Resolved, base: string)
    requires ProbeOutcome(overrides, provider, ignore, directives, Ok(r))
    ensures base in overrides ==> base in r.files && r.files[base] == overrides[base]
    ensures base in Names(directives) ==> base in r.files || base in Elements(r.dropped)
    ensures base in r.files && base !in overrides ==>
              base in Names(directives) && provider.Some? && provider.value.lookup(base) == Hit((r.files[base], true))
    ensures base in Elements(r.dropped) ==>
              ignore && (provider.None? || provider.value.lookup(base) == Absent ||
                         (provider.value.lookup(base).Hit? && !provider.value.lookup(base).value.1))
  {
    hide Names, Kept, Size, Ascending, IsFirst;
    assert base in Names(directives) ==> !Stops(Probing(overrides, provider)(base), true, !ignore);
  }
}
