/** Results, options and the Go `strings` helpers the modelled code relies on. */
module Text {

  datatype Option<+T> = None | Some(value: T)

  datatype Result<+T, +E> = Ok(value: T) | Err(error: E) {
    predicate IsFailure() { Err? }

    function PropagateFailure<U>(): Result<U, E>
      requires Err?
    {
      Err(error)
    }

    function Extract(): T
      requires Ok?
    {
      value
    }
  }

  /** ASCII white space as `strings.TrimSpace` sees it. */
  predicate IsSpace(c: char) {
    c == ' ' || c == '\t' || c == '\n' || c == '\r' || c == '\U{0B}' || c == '\U{0C}'
  }

  ghost predicate AllSpace(s: string) {
    forall k :: 0 <= k < |s| ==> IsSpace(s[k])
  }

  function TrimLeft(s: string): string {
    if s != "" && IsSpace(s[0]) then TrimLeft(s[1..]) else s
  }

  function TrimRight(s: string): string {
    if s != "" && IsSpace(s[|s| - 1]) then TrimRight(s[..|s| - 1]) else s
  }

  function Trim(s: string): string {
    TrimRight(TrimLeft(s))
  }

  /** Neither end of `s` is white space (the empty text included). */
  predicate Snug(s: string) {
    s == "" || (!IsSpace(s[0]) && !IsSpace(s[|s| - 1]))
  }

  lemma {:induction false} TrimLeftDrops(pad: string, s: string)
    requires AllSpace(pad)
    requires s == "" || !IsSpace(s[0])
    ensures TrimLeft(pad + s) == s
  {
    if pad == "" {
      assert pad + s == s;
    } else {
      assert (pad + s)[1..] == pad[1..] + s;
      TrimLeftDrops(pad[1..], s);
    }
  }

  lemma {:induction false} TrimRightDrops(s: string, pad: string)
    requires AllSpace(pad)
    requires s == "" || !IsSpace(s[|s| - 1])
    ensures TrimRight(s + pad) == s
  {
    if pad == "" {
      assert s + pad == s;
    } else {
      var front := pad[..|pad| - 1];
      assert (s + pad)[..|s + pad| - 1] == s + front;
      assert (s + pad)[|s + pad| - 1] == pad[|pad| - 1];
      TrimRightDrops(s, front);
    }
  }

  /** Trimming removes exactly the padding around a snug text. */
  lemma TrimStrips(left: string, core: string, right: string)
    requires AllSpace(left) && AllSpace(right) && Snug(core)
    ensures Trim(left + core + right) == core
  {
    if core == "" {
      assert left + core + right == (left + right) + "";
      TrimLeftDrops(left + right, "");
    } else {
      assert left + core + right == left + (core + right);
      TrimLeftDrops(left, core + right);
      TrimRightDrops(core, right);
    }
  }

  lemma TrimSnug(core: string)
    requires Snug(core)
    ensures Trim(core) == core
  {
    assert "" + core + "" == core;
    TrimStrips("", core, "");
  }

  function Join(parts: seq<string>, sep: string): string {
    if |parts| == 0 then ""
    else if |parts| == 1 then parts[0]
    else parts[0] + sep + Join(parts[1..], sep)
  }

  function LowerChar(c: char): char {
    if 'A' <= c <= 'Z' then ((c as int) + 32) as char else c
  }

  function Lower(s: string): (r: string)
    ensures |r| == |s|
    ensures forall k :: 0 <= k < |s| ==> r[k] == LowerChar(s[k])
  {
    if s == "" then "" else [LowerChar(s[0])] + Lower(s[1..])
  }

  function HasPrefix(s: string, p: string): bool {
    |p| <= |s| && s[..|p|] == p
  }

  /** `strings.Index`: the first position at which `p` occurs. */
  function Index(s: string, p: string): (r: Option<nat>)
    ensures r.Some? ==> r.value + |p| <= |s|
  {
    if HasPrefix(s, p) then Some(0)
    else if s == "" then None
    else
      var r := Index(s[1..], p);
      if r.Some? then Some(r.value + 1) else None
  }

  lemma Assoc(a: string, b: string, c: string)
    ensures a + (b + c) == (a + b) + c
  {
  }

  lemma Cut(a: string, b: string)
    ensures (a + b)[..|a|] == a && (a + b)[|a|..] == b
  {
  }

  lemma DropInto(a: string, b: string, n: nat)
    requires n <= |a|
    ensures (a + b)[n..] == a[n..] + b
  {
  }

  /** A byte that is no white space survives trimming. */
  lemma {:induction false} TrimRightKeeps(s: string, c: char)
    requires c in s && !IsSpace(c)
    ensures c in TrimRight(s)
  {
    if IsSpace(s[|s| - 1]) {
      assert s == s[..|s| - 1] + [s[|s| - 1]];
      TrimRightKeeps(s[..|s| - 1], c);
    }
  }

  lemma {:induction false} TrimLeftKeeps(s: string, c: char)
    requires c in s && !IsSpace(c)
    ensures c in TrimLeft(s)
  {
    if IsSpace(s[0]) {
      assert s == [s[0]] + s[1..];
      TrimLeftKeeps(s[1..], c);
    }
  }

  lemma TrimKeeps(s: string, c: char)
    requires c in s && !IsSpace(c)
    ensures c in Trim(s)
  {
    TrimLeftKeeps(s, c);
    TrimRightKeeps(TrimLeft(s), c);
  }

  /** Text without the first byte of `p` cannot hold the start of `p`. */
  lemma {:induction false} IndexSkip(pre: string, s: string, p: string)
    requires p != "" && p[0] !in pre
    ensures Index(pre + s, p) == if Index(s, p).Some? then Some(|pre| + Index(s, p).value) else None
  {
    if pre == "" {
      assert pre + s == s;
    } else {
      assert (pre + s)[0] == pre[0];
      assert |p| <= |pre + s| ==> (pre + s)[..|p|][0] == pre[0];
      assert (pre + s)[1..] == pre[1..] + s;
      IndexSkip(pre[1..], s, p);
    }
  }

  /** A final byte that is not part of `p` does not create an occurrence. */
  lemma {:induction false} IndexBefore(s: string, q: char, p: string)
    requires p != "" && q !in p
    ensures Index(s + [q], p) == Index(s, p)
  {
    HasPrefixBefore(s, q, p);
    if s == "" {
      assert s + [q] == [q];
      assert [q][1..] == "";
    } else if !HasPrefix(s, p) {
      assert (s + [q])[1..] == s[1..] + [q];
      IndexBefore(s[1..], q, p);
    }
  }

  lemma HasPrefixBefore(s: string, q: char, p: string)
    requires p != "" && q !in p
    ensures HasPrefix(s + [q], p) == HasPrefix(s, p)
  {
    if |p| <= |s| {
      assert (s + [q])[..|p|] == s[..|p|];
    } else if |p| == |s| + 1 {
      assert (s + [q])[..|p|][|s|] == q;
    }
  }

  lemma {:induction false} Fewer<T>(a: set<T>, b: set<T>)
    requires a <= b
    ensures |a| <= |b|
  {
    if a != {} {
      var x :| x in a;
      Fewer(a - {x}, b - {x});
    }
  }
}
