/** The two entry points of the scoper, from query text to what the scoped text computes. */
module PromScoping {
  import opened Text
  import opened PromLexer
  import opened PromScope
  import opened PromTree
  import opened PromScopeTree
  import opened PromMeaning
  import opened PromQueries
  import opened PromUnions
  import opened PromIsolation
  import opened PromFragment
  import opened PromRanges
  import opened PromLiterals
  import opened PromLexical
  import opened PromScanner

  method ScopeToWaf(query: string, namespace: string, name: string) returns (r: Result<string, Error>)
    ensures r == ScopePromQL(query, namespace, name)
  {
    hide Rewrite;
    if Trim(query) == "" { return Err(EmptyQuery); }
    if namespace == "" || name == "" { return Err(MissingIdentity); }
    r := RewritePromQL(query, [Identity(namespace, name)]);
  }

  method ScopeToWafs(query: string, ids: seq<Identity>) returns (r: Result<string, Error>)
    ensures r == ScopePromQLToWAFs(query, ids)
  {
    hide Rewrite;
    if Trim(query) == "" { return Err(EmptyQuery); }
    if |ids| == 0 { return Ok("vector(0)"); }
    var few := if |ids| > MAX_UNION then ids[..MAX_UNION] else ids;
    r := RewritePromQL(query, few);
  }

  /** The text is the printing of the scoped tree, a query of the fragment, which computes on all
      series what `e` computes on those of the WAFs. */
  ghost predicate Confines(w: World, text: string, e: Expr, ids: seq<Identity>, db: set<Series>)
    requires |ids| > 0
  {
    && Scope(e, ids).Ok? && Wf(Scope(e, ids).value) && text == Print(Scope(e, ids).value)
    && Eval(w, Scope(e, ids).value, db) == Eval(w, e, Restrict(db, ids))
  }

  /** Whatever text the scoper gives for one WAF computes on the whole database what the query
      computes on that WAF's series. */
  lemma {:induction false} TextOfOneWaf(w: World, e: Expr, namespace: string, name: string, db: set<Series>)
    requires Wf(e) && ReadsLiterals(w) && Every(e, s => OwnSel(w, s, Identity(namespace, name)))
    requires ScopePromQL(Print(e), namespace, name).Ok?
    ensures Confines(w, ScopePromQL(Print(e), namespace, name).value, e, [Identity(namespace, name)], db)
    ensures Operable(Scope(e, [Identity(namespace, name)]).value) <==> Operable(e)
  {
    hide Operable, Covered, Wf, ReadsLiterals, ReadsQuoted, OwnSel, Every, Rewrite, Scope, Eval, Restrict, PrintTo, Print;
    var id := Identity(namespace, name);
    LiteralsQuoted(w);
    ReadableAll(w, [id]);
    assert [id][0] == id;
    ScannerComputesScope(e, [id]);
    ScopeWf(e, [id]);
    ScopeOperable(e, [id]);
    ScopedQueryOfOneWaf(w, e, id, db);
  }

  /** For several WAFs it does so, with no operator on a range vector, if and only if the query has
      none, no selector or range function follows a bare `group_left` or `group_right`, and every
      selector with a range is the argument of a range function that the scanner knows. */
  lemma {:induction false} TextOfSeveralWafs(w: World, e: Expr, ids: seq<Identity>, db: set<Series>)
    requires Wf(e) && |ids| > 0 && ReadsLiterals(w) && Spread(w, e, Capped(ids))
    requires ScopePromQLToWAFs(Print(e), ids).Ok?
    ensures var text, few := ScopePromQLToWAFs(Print(e), ids).value, Capped(ids);
            && (Scope(e, few).Ok? && Operable(Scope(e, few).value) && Confines(w, text, e, few, db) <==>
                Operable(e) && (|ids| == 1 || (Parted(e) && Covered(e))))
            && (|ids| == 1 || Covered(e) ==> (Confines(w, text, e, few, db) <==> |ids| == 1 || Parted(e)))
  {
    hide Wf, ReadsLiterals, ReadsQuoted, Spread, Rewrite, Scope, Eval, Restrict, PrintTo, Print, Parted, Operable, Covered;
    var few := Capped(ids);
    LiteralsQuoted(w);
    ScannerComputesScope(e, few);
    ScopeWf(e, few);
    ScopeOperable(e, few);
    if |ids| == 1 || Covered(e) { ScopedQueryOfSeveralWafs(w, e, few, db); }
  }

  /** The text is the printing of the scoped tree, which computes the same without the series of other
      WAFs and is in the fragment if there is one WAF or no union follows a bare `group_left` or `group_right`. */
  ghost predicate PrintsBlinkered(w: World, text: string, e: Expr, ids: seq<Identity>, db: set<Series>)
    requires |ids| > 0
  {
    && Scope(e, ids).Ok? && text == Print(Scope(e, ids).value)
    && (Wf(Scope(e, ids).value) <==> |ids| == 1 || Parted(e))
    && Eval(w, Scope(e, ids).value, db) == Eval(w, Scope(e, ids).value, Restrict(db, ids))
  }

  /** Whatever text the scoper gives for a query of the fragment prints a tree that sees no series
      but those of the WAFs. The text reads as that tree unless a union follows a bare `group_left`
      or `group_right`. */
  lemma {:induction false} TextSeesOnlyItsWafs(w: World, e: Expr, ids: seq<Identity>, db: set<Series>)
    requires Wf(e) && |ids| > 0 && ReadsLiterals(w) && ScopePromQLToWAFs(Print(e), ids).Ok?
    ensures PrintsBlinkered(w, ScopePromQLToWAFs(Print(e), ids).value, e, Capped(ids), db)
  {
    hide Wf, ReadsLiterals, ReadsQuoted, Rewrite, Scope, Eval, Restrict, Print, Parted, ScopePromQLToWAFs, Capped;
    var few := Capped(ids);
    LiteralsQuoted(w);
    ScansCapped(Print(e), ids);
    ScannerComputesScope(e, few);
    ScopeWf(e, few);
    SeesOnlyItsWafs(w, e, few, db);
  }

  lemma ScansCapped(query: string, ids: seq<Identity>)
    requires |ids| > 0 && ScopePromQLToWAFs(query, ids).Ok?
    ensures ScopePromQLToWAFs(query, ids) == Rewrite(query, Capped(ids))
    ensures |Capped(ids)| > 0 && (|Capped(ids)| == 1 <==> |ids| == 1)
  {
    hide Rewrite;
  }

  /** A query of white space and a missing identity are refused; without WAFs the answer is a constant; every
      other text is rewritten, for the first 256 WAFs. */
  lemma EntryPoints(query: string, namespace: string, name: string, ids: seq<Identity>)
    ensures AllSpace(query) ==> ScopePromQL(query, namespace, name) == Err(EmptyQuery) == ScopePromQLToWAFs(query, ids)
    ensures !AllSpace(query) && (namespace == "" || name == "") ==> ScopePromQL(query, namespace, name) == Err(MissingIdentity)
    ensures !AllSpace(query) && namespace != "" && name != "" ==>
              ScopePromQL(query, namespace, name) == Rewrite(query, [Identity(namespace, name)])
    ensures !AllSpace(query) && ids == [] ==> ScopePromQLToWAFs(query, ids) == Ok("vector(0)")
    ensures !AllSpace(query) && ids != [] ==>
              ScopePromQLToWAFs(query, ids) == Rewrite(query, if |ids| > 256 then ids[..256] else ids)
  {
    hide Rewrite;
    TrimEmpty(query);
  }

  lemma {:induction false} LeftEmpty(s: string)
    ensures TrimLeft(s) == "" <==> AllSpace(s)
    ensures TrimLeft(s) != "" ==> !IsSpace(TrimLeft(s)[0])
  {
    if s != "" && IsSpace(s[0]) {
      LeftEmpty(s[1..]);
      assert forall k :: 0 < k < |s| ==> s[k] == s[1..][k - 1];
    }
  }

  lemma {:induction false} RightStays(s: string)
    requires s != "" && !IsSpace(s[0])
    ensures TrimRight(s) != ""
  {
    if IsSpace(s[|s| - 1]) { RightStays(s[..|s| - 1]); }
  }

  lemma TrimEmpty(s: string)
    ensures Trim(s) == "" <==> AllSpace(s)
  {
    LeftEmpty(s);
    if TrimLeft(s) != "" { RightStays(TrimLeft(s)); }
  }
}
