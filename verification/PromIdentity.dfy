/** Which matchers the scanner recognises as identity matchers, and what it makes of them. */
module PromIdentity {
  import opened Text
  import opened PromLexer
  import opened PromScope
  import opened PromTree
  import opened PromScopeTree
  import opened PromMatchers

  /** The text after the operator. */
  function Tail(m: Matcher): string { m.g2 + PrintQuoted(m.value, "") }

  /** An operator occurs after the matcher's own exactly when it occurs in the value. */
  lemma TailIndex(m: Matcher, op: string)
    requires WfMatcher(m) && op in OPERATORS
    ensures Index(Tail(m), op).Some? <==> Occurs(op, m.value.body)
  {
    var q, body := m.value.q, m.value.body;
    assert op[0] !in m.g2 && op[0] !in [q] && q !in op;
    assert body + ([q] + "") == body + [q];
    IndexBefore(body, q, op);
    IndexSkip([q], body + [q], op);
    IndexSkip(m.g2, [q] + (body + [q]), op);
  }

  /** The text of a matcher, cut at its operator. */
  lemma MatcherCut(m: Matcher)
    ensures MatcherText(m) == (m.name + m.g1) + (m.op + Tail(m))
  {
    Assoc(m.name, m.g1, m.op + Tail(m));
  }

  lemma TailStart(m: Matcher)
    requires WfMatcher(m)
    ensures Tail(m) != "" && Tail(m)[0] !in "~=!"
  {
  }

  lemma IndexStep(c: char, s: string, p: string)
    requires |p| == 2 && s != "" && (c != p[0] || s[0] != p[1])
    ensures Index([c] + s, p) == Later(1, Index(s, p))
  {
    var t := [c] + s;
    assert t[1..] == s;
    assert t[..2][0] == c && t[..2][1] == s[0];
  }

  /** An operator that differs from `op` does not match at the position of `op`. */
  lemma OpIndex(op: string, tail: string, other: string)
    requires 1 <= |op| <= 2 && |other| == 2 && op != other
    requires tail != "" && tail[0] != other[1]
    ensures Index(op + tail, other) == Later(|op|, Index(tail, other))
  {
    hide Index;
    IndexStep(op[|op| - 1], tail, other);
    if |op| == 1 {
      assert op + tail == [op[0]] + tail;
    } else {
      assert op + tail == [op[0]] + ([op[1]] + tail);
      IndexStep(op[0], [op[1]] + tail, other);
    }
  }

  lemma OwnIndex(op: string, tail: string)
    ensures Index(op + tail, op) == Some(0)
  {
    Cut(op, tail);
  }

  /** Where the scanner finds an operator in a matcher. */
  lemma FindOp(m: Matcher, op: string)
    requires WfMatcher(m) && op in OPERATORS
    ensures Index(MatcherText(m), op) == Later(|m.name| + |m.g1|, Index(m.op + Tail(m), op))
  {
    MatcherCut(m);
    assert op[0] !in m.name + m.g1;
    hide Index, MatcherText, Tail;
    IndexSkip(m.name + m.g1, m.op + Tail(m), op);
  }

  /** An operator tried before the matcher's own is found only inside the value. */
  lemma FindOther(m: Matcher, other: string)
    requires WfMatcher(m) && other in OPERATORS && m.op != other
    requires other == "=~" || (other == "!~" && m.op != "=~") || (other == "!=" && m.op == "=")
    ensures !Occurs(other, m.value.body) ==> Index(MatcherText(m), other) == None
    ensures Occurs(other, m.value.body) ==>
              Index(MatcherText(m), other).Some? && Index(MatcherText(m), other).value >= |m.name| + |m.g1| + |m.op|
  {
    hide Index, MatcherText, Tail, WfMatcher;
    OpListed(m);
    FindOp(m, other);
    TailStart(m);
    OpIndex(m.op, Tail(m), other);
    TailIndex(m, other);
  }

  lemma FindOwn(m: Matcher)
    requires WfMatcher(m)
    ensures Index(MatcherText(m), m.op) == Some(|m.name| + |m.g1|)
  {
    hide Index, MatcherText, Tail, WfMatcher;
    OpListed(m);
    FindOp(m, m.op);
    OwnIndex(m.op, Tail(m));
  }

  lemma OpListed(m: Matcher)
    requires WfMatcher(m)
    ensures m.op in OPERATORS && |m.name| > 0 && 1 <= |m.op| <= 2
  {
  }

  /** What the scanner reads when it settles on the matcher's own operator. */
  lemma ReadOwn(m: Matcher)
    requires WfMatcher(m)
    ensures var at := |m.name| + |m.g1|; var t := MatcherText(m);
            at + |m.op| <= |t| && Trim(t[..at]) == m.name && UnquoteProm(t[at + |m.op|..]) == m.value.body
  {
    var at, t := |m.name| + |m.g1|, MatcherText(m);
    MatcherCut(m);
    Cut(m.name + m.g1, m.op + Tail(m));
    assert t[at + |m.op|..] == Tail(m);
    GapIsSpace(m.g1);
    assert "" + m.name + m.g1 == m.name + m.g1;
    TrimStrips("", m.name, m.g1);
    UnquoteTail(m);
  }

  lemma UnquoteTail(m: Matcher)
    requires WfMatcher(m)
    ensures UnquoteProm(Tail(m)) == m.value.body
  {
    var v := PrintQuoted(m.value, "");
    assert v[0] == m.value.q && v[|v| - 1] == m.value.q && v[1..|v| - 1] == m.value.body;
    GapIsSpace(m.g2);
    TrimStrips(m.g2, v, "");
    assert m.g2 + v + "" == m.g2 + v;
  }

  lemma OpMark(m: Matcher)
    requires WfMatcher(m)
    ensures m.op != "" && (m.op[0] == '=' || m.op[0] == '!')
  {
  }

  lemma IdentityKeyMarks(key: string)
    requires '=' in key || '!' in key
    ensures !IsIdentityKey(key)
  {
  }

  /** A key that reaches past the operator is no identity label. */
  lemma ReadPast(m: Matcher, at: nat)
    requires WfMatcher(m) && |m.name| + |m.g1| + |m.op| <= at <= |MatcherText(m)|
    ensures !IsIdentityKey(Trim(MatcherText(m)[..at]))
  {
    hide MatcherText, WfMatcher, Tail, Trim, IsIdentityKey;
    OpMark(m);
    var t, c := MatcherText(m), m.op[0];
    MatcherCut(m);
    assert t[..at][|m.name| + |m.g1|] == c;
    TrimKeeps(t[..at], c);
    IdentityKeyMarks(Trim(t[..at]));
  }

  ghost predicate NotIdentity(p: Option<Parsed>) { p.None? || !IsIdentityKey(p.value.key) }

  /** One operator of the scanner's list, tried on a matcher. */
  lemma TryOther(m: Matcher, ops: seq<string>)
    requires WfMatcher(m) && |ops| > 0 && ops[0] in OPERATORS && m.op != ops[0]
    requires ops[0] == "=~" || (ops[0] == "!~" && m.op != "=~") || (ops[0] == "!=" && m.op == "=")
    ensures !Occurs(ops[0], m.value.body) ==> ParseWith(MatcherText(m), ops) == ParseWith(MatcherText(m), ops[1..])
    ensures Occurs(ops[0], m.value.body) ==> NotIdentity(ParseWith(MatcherText(m), ops))
  {
    hide Index, MatcherText, WfMatcher, Trim, Occurs, UnquoteProm;
    OpListed(m);
    FindOther(m, ops[0]);
    if Occurs(ops[0], m.value.body) {
      ReadPast(m, Index(MatcherText(m), ops[0]).value);
    }
  }

  lemma TryOwn(m: Matcher, ops: seq<string>)
    requires WfMatcher(m) && |ops| > 0 && ops[0] == m.op
    ensures ParseWith(MatcherText(m), ops) == Some(Parsed(m.name, m.op, m.value.body))
  {
    hide Index, MatcherText, WfMatcher, Trim, UnquoteProm;
    OpListed(m);
    FindOwn(m);
    ReadOwn(m);
  }

  /** The scanner reads a matcher as written, or as no identity matcher at all. */
  lemma ParseOf(m: Matcher)
    requires WfMatcher(m)
    ensures ReadAsWritten(m) ==> ParseMatcher(MatcherText(m)) == Some(Parsed(m.name, m.op, m.value.body))
    ensures !ReadAsWritten(m) ==> NotIdentity(ParseMatcher(MatcherText(m)))
  {
    MatcherSnug(m);
    TrimSnug(MatcherText(m));
    OpListed(m);
    hide MatcherText, WfMatcher, Trim, ParseWith, Occurs;
    var o1, o2, o3 := OPERATORS[1..], OPERATORS[1..][1..], OPERATORS[1..][1..][1..];
    if m.op == "=~" {
      TryOwn(m, OPERATORS);
    } else {
      TryOther(m, OPERATORS);
      if m.op == "!~" {
        TryOwn(m, o1);
      } else {
        TryOther(m, o1);
        if m.op == "!=" {
          TryOwn(m, o2);
        } else {
          TryOther(m, o2);
          TryOwn(m, o3);
        }
      }
    }
  }

  ghost predicate AllWf(ms: seq<Matcher>) { forall i :: 0 <= i < |ms| ==> WfMatcher(ms[i]) }

  lemma {:induction false} FlattenWf(ms: Matchers)
    requires WfMatchers(ms)
    ensures AllWf(Flatten(ms))
  {
    if ms.More? { FlattenWf(ms.rest); }
  }

  lemma {:induction false} IdentityOfTexts(ms: seq<Matcher>, found: Identity)
    requires AllWf(ms)
    ensures IdentityOf(Texts(ms), found) == Wanted(ms, found)
    decreases |ms|
  {
    hide ParseMatcher, WfMatcher, MatcherText, ReadAsWritten;
    if |ms| > 0 {
      var m, found' := ms[0], if ms[0].name == "waf_namespace" then found.(namespace := ms[0].value.body) else found.(name := ms[0].value.body);
      assert Texts(ms)[1..] == Texts(ms[1..]);
      ParseOf(m);
      IdentityOfTexts(ms[1..], found);
      IdentityOfTexts(ms[1..], found');
    }
  }

  lemma {:induction false} KeptTexts(ms: seq<Matcher>)
    requires AllWf(ms)
    ensures Kept(Texts(ms)) == Texts(Others(ms))
  {
    hide ParseMatcher, WfMatcher, MatcherText, ReadAsWritten;
    if |ms| > 0 {
      assert Texts(ms)[1..] == Texts(ms[1..]);
      ParseOf(ms[0]);
      KeptTexts(ms[1..]);
      assert ([ms[0]] + Others(ms[1..]))[1..] == Others(ms[1..]);
    }
  }
}
