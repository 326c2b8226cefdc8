/** What the patterns of the domain trie mean, on labels and on strings. */
module Patterns {
  import opened Common
  import opened DomainTrie
  import opened SuffixRule

  // -------- label by label --------

  /** Labels that match in order: each pattern label is the other, or `*`. */
  predicate Fits(ps: seq<string>, qs: seq<string>) {
    |ps| == |qs| && forall i :: 0 <= i < |ps| ==> ps[i] == qs[i] || ps[i] == "*"
  }

  /** The last labels of qs fit ps, and there are more. */
  predicate FitsBelow(ps: seq<string>, qs: seq<string>) {
    |qs| > |ps| && Fits(ps, qs[|qs| - |ps|..])
  }

  /**
   What a pattern matches, by its labels: `+.x` stands for x and everything below it, `.x` for everything below x,
   and any other pattern for domains of as many labels that fit it.
   */
  ghost predicate Meaning(parts: seq<string>, qs: seq<string>)
    requires parts != []
  {
    if parts[0] == "+" then Fits(parts[1..], qs) || FitsBelow(parts[1..], qs)
    else if parts[0] == "" then FitsBelow(parts[1..], qs)
    else Fits(parts, qs)
  }

  lemma {:induction false} MatchesLabels(p: seq<string>, labels: seq<string>)
    requires NoneEmpty(p)
    ensures Matches(p, labels) <==> Fits(p, labels)
    ensures Matches(p + [""], labels) <==> |labels| > |p| && Fits(p, labels[..|p|])
  {
    if p == [] {
      assert p + [""] == [""];
    } else {
      assert (p + [""])[1..] == p[1..] + [""];
      if labels != [] {
        MatchesLabels(p[1..], labels[1..]);
        FitsStep(p, labels);
        if |labels| > |p| {
          assert labels[..|p|][1..] == labels[1..][..|p| - 1];
          FitsStep(p, labels[..|p|]);
        }
      }
    }
  }

  lemma FitsStep(p: seq<string>, labels: seq<string>)
    requires p != [] && labels != []
    ensures Fits(p, labels) <==> (p[0] == labels[0] || p[0] == "*") && Fits(p[1..], labels[1..])
  {
    if Fits(p[1..], labels[1..]) && (p[0] == labels[0] || p[0] == "*") {
      forall i | 0 <= i < |p| ensures p[i] == labels[i] || p[i] == "*" {
        assert i > 0 ==> p[i] == p[1..][i - 1] && labels[i] == labels[1..][i - 1];
      }
    }
  }

  lemma FitsReversed(ps: seq<string>, qs: seq<string>)
    ensures Fits(Rev(ps), Rev(qs)) <==> Fits(ps, qs)
  {
    hide Rev;
    if |ps| == |qs| {
      var n := |ps|;
      forall i | 0 <= i < n ensures Rev(ps)[i] == ps[n - 1 - i] && Rev(qs)[i] == qs[n - 1 - i] {
        RevAt(ps, i);
        RevAt(qs, i);
      }
      if Fits(Rev(ps), Rev(qs)) {
        forall i | 0 <= i < n ensures ps[i] == qs[i] || ps[i] == "*" {
          assert Rev(ps)[n - 1 - i] == ps[i] && Rev(qs)[n - 1 - i] == qs[i];
        }
      }
    }
  }

  lemma RevPrefix(qs: seq<string>, n: nat)
    requires n <= |qs|
    ensures Rev(qs)[..n] == Rev(qs[|qs| - n..])
  {
    hide Rev;
    var end := qs[|qs| - n..];
    forall i | 0 <= i < n ensures Rev(qs)[i] == Rev(end)[i] {
      RevAt(qs, i);
      RevAt(end, i);
    }
  }

  lemma ReversedMatch(ps: seq<string>, qs: seq<string>)
    requires NoneEmpty(ps)
    ensures Matches(Rev(ps), Rev(qs)) <==> Fits(ps, qs)
    ensures Matches(Rev(ps) + [""], Rev(qs)) <==> FitsBelow(ps, qs)
  {
    hide Rev, Matches, Fits;
    LabelsOf(ps);
    MatchesLabels(Rev(ps), Rev(qs));
    FitsReversed(ps, qs);
    if |qs| > |ps| {
      RevPrefix(qs, |ps|);
      FitsReversed(ps, qs[|qs| - |ps|..]);
    }
  }

  /** A valid pattern matches exactly the domains its meaning says. */
  lemma PatternMeans(pattern: string, q: string)
    requires ValidAndSplit(pattern).Some? && Labels(q).Some?
    ensures PatternMatches(pattern, Labels(q).value) <==> Meaning(Split(pattern), Split(q))
  {
    hide Split, Rev, Matches, Fits;
    var parts, qs := Split(pattern), Split(q);
    var tail := parts[1..];
    SearchableIff(q);
    assert NoneEmpty(tail) && (parts[0] != "" ==> NoneEmpty(parts));
    RevCons("", tail);
    ReversedMatch(tail, qs);
    if parts[0] == "+" {
      assert Paths(pattern) == [Rev(tail), Rev(tail) + [""]];
    } else if parts[0] == "" {
      assert parts == [""] + tail;
      assert Paths(pattern) == [Rev(tail) + [""]];
    } else {
      assert Paths(pattern) == [Rev(parts)];
      ReversedMatch(parts, qs);
    }
    assert forall p :: p in Paths(pattern) ==> p == Paths(pattern)[0] || p == Paths(pattern)[|Paths(pattern)| - 1];
    assert Paths(pattern)[0] in Paths(pattern) && Paths(pattern)[|Paths(pattern)| - 1] in Paths(pattern);
  }

  /** After one insertion, a search finds exactly the domains the pattern means. */
  lemma FoundAfterInsert<D>(pattern: string, d: D, q: string)
    requires ValidAndSplit(pattern).Some?
    ensures SearchDomain(TableOf([Insertion(pattern, Some(d))]), q).Some? <==>
            NoneEmpty(Split(q)) && Meaning(Split(pattern), Split(q))
  {
    hide Split, TableOf, SearchDomain, Labels, PatternMatches, NoneEmpty;
    var list := [Insertion(pattern, Some(d))];
    SearchableIff(q);
    TrieRefinesPatternList(list, q);
    if Labels(q).Some? {
      PatternMeans(pattern, q);
      SomePatternMatches(list, q);
      assert list[0].domain == pattern;
    }
  }

  // -------- on strings --------

  /** A domain of which no label is empty, `*` or, in front, `+`. */
  ghost predicate Ordinary(v: string) {
    NoneEmpty(Split(v)) && "*" !in Split(v) && Split(v)[0] != "+"
  }

  lemma FitsPlain(ps: seq<string>, qs: seq<string>)
    requires "*" !in ps
    ensures Fits(ps, qs) <==> ps == qs
    ensures FitsBelow(ps, qs) <==> |qs| > |ps| && qs[|qs| - |ps|..] == ps
  {
    if Fits(ps, qs) {
      assert forall i :: 0 <= i < |ps| ==> ps[i] in ps;
    }
    if |qs| > |ps| && Fits(ps, qs[|qs| - |ps|..]) {
      assert forall i :: 0 <= i < |ps| ==> ps[i] in ps;
    }
  }

  lemma ValidParts(pattern: string, parts: seq<string>)
    requires parts == Split(pattern) && (forall i :: 1 <= i < |parts| ==> parts[i] != "") && (|parts| > 1 || parts[0] != "")
    ensures ValidAndSplit(pattern) == Some(parts)
  {
    hide Split;
    if pattern != "" {
      LastPart(pattern);
    }
  }

  /** Inserting an ordinary domain files that domain and no other. */
  lemma PlainMeansItself<D>(v: string, d: D, q: string)
    requires Ordinary(v)
    ensures ValidAndSplit(v).Some?
    ensures SearchDomain(TableOf([Insertion(v, Some(d))]), q).Some? <==> q == v
  {
    hide Split, TableOf, SearchDomain, Fits;
    ValidParts(v, Split(v));
    FoundAfterInsert(v, d, q);
    FitsPlain(Split(v), Split(q));
    UnderIffParts(q, v);
  }

  /** Inserting a leading dot and an ordinary domain files everything below it. */
  lemma DotMeansBelow<D>(v: string, d: D, q: string)
    requires Ordinary(v) && NoneEmpty(Split(q))
    ensures ValidAndSplit("." + v).Some?
    ensures SearchDomain(TableOf([Insertion("." + v, Some(d))]), q).Some? <==> EndsWith(q, "." + v)
  {
    hide Split, TableOf, SearchDomain, Fits;
    var vs, qs := Split(v), Split(q);
    SplitEmpty();
    SplitConcat("", v);
    assert "" + "." + v == "." + v && Split("." + v) == [""] + vs && ([""] + vs)[1..] == vs;
    ValidParts("." + v, [""] + vs);
    FoundAfterInsert("." + v, d, q);
    FitsPlain(vs, qs);
    UnderIffParts(q, v);
    assert EndsWithParts(qs, vs) && |qs| == |vs| ==> qs == vs;
  }

  lemma {:induction false} NoDotInParts(s: string)
    ensures forall p :: p in Split(s) ==> '.' !in p
  {
    if s != "" {
      NoDotInParts(s[1..]);
      var parts := Split(s[1..]);
      assert parts[0] in parts && forall p :: p in parts[1..] ==> p in parts;
    }
  }

  lemma {:induction false} SplitOne(l: string)
    requires '.' !in l
    ensures Split(l) == [l]
  {
    if l != "" {
      assert l == [l[0]] + l[1..];
      SplitOne(l[1..]);
    }
  }

  /** q is one more label in front of v. */
  ghost predicate OneLabelMore(q: string, v: string) {
    exists n :: 0 < n < |q| && '.' !in q[..n] && q[n..] == "." + v
  }

  lemma OneMore(q: string, v: string)
    requires NoneEmpty(Split(q))
    ensures OneLabelMore(q, v) <==> |Split(q)| == |Split(v)| + 1 && Split(q)[1..] == Split(v)
  {
    hide Split, Join;
    var qs, vs := Split(q), Split(v);
    if n :| 0 < n < |q| && '.' !in q[..n] && q[n..] == "." + v {
      assert q == q[..n] + "." + v;
      SplitConcat(q[..n], v);
      SplitOne(q[..n]);
    }
    if |qs| == |vs| + 1 && qs[1..] == vs {
      NoDotInParts(q);
      JoinSplit(q);
      JoinSplit(v);
      assert qs == [qs[0]] + vs;
      JoinConcat([qs[0]], vs);
      JoinOne(qs[0]);
      var n := |qs[0]|;
      assert q == qs[0] + "." + v;
      assert q[..n] == qs[0] && q[n..] == "." + v;
    }
  }

  lemma JoinOne(l: string)
    ensures Join([l]) == l
  {
  }

  /** Inserting `*.` and an ordinary domain files the domains with exactly one label in front of it. */
  lemma StarMeansOneLabel<D>(v: string, d: D, q: string)
    requires Ordinary(v) && NoneEmpty(Split(q))
    ensures ValidAndSplit("*." + v).Some?
    ensures SearchDomain(TableOf([Insertion("*." + v, Some(d))]), q).Some? <==> OneLabelMore(q, v)
  {
    hide Split, TableOf, SearchDomain, OneLabelMore;
    var vs, qs := Split(v), Split(q);
    SplitOne("*");
    SplitConcat("*", v);
    var parts := ["*"] + vs;
    assert "*" + "." + v == "*." + v && Split("*." + v) == parts && parts[1..] == vs;
    ValidParts("*." + v, parts);
    FoundAfterInsert("*." + v, d, q);
    OneMore(q, v);
    FitsStep(parts, qs);
    FitsPlain(vs, qs[1..]);
  }

  // -------- preference --------

  lemma {:induction false} NothingPrecedesItself(p: seq<string>, labels: seq<string>)
    ensures !Precedes(p, labels, labels)
    decreases |labels|
  {
    if p != [] && labels != [] {
      NothingPrecedesItself(p[1..], labels[1..]);
    }
  }

  /** A domain filed as it is beats every pattern, whatever else is filed and in whatever order. */
  lemma ExactComesFirst<D>(list: seq<Insertion<D>>, q: string)
    requires Labels(q).Some? && Live(list, Rev(Split(q)))
    ensures SearchDomain(TableOf(list), q) == Some(Rev(Split(q)))
  {
    hide Split, Rev, TableOf, SearchDomain, Live, Matches, Precedes;
    SearchableIff(q);
    TrieRefinesPatternList(list, q);
    var labels := Rev(Split(q));
    LabelsOf(Split(q));
    MatchesItself(labels);
    var r := SearchDomain(TableOf(list), q);
    NothingPrecedesItself(r.value, labels);
  }

  lemma {:induction false} MatchesItself(labels: seq<string>)
    ensures NoneEmpty(labels) ==> Matches(labels, labels)
  {
    if labels != [] && NoneEmpty(labels) {
      MatchesItself(labels[1..]);
    }
  }

  lemma {:induction false} DotNeverBeforeStar(p: seq<string>, labels: seq<string>)
    requires p <= labels && NoneEmpty(labels)
    ensures !Precedes(p + [""], p + ["*"], labels)
    decreases |p|
  {
    if p == [] {
      assert p + [""] == [""] && p + ["*"] == ["*"];
    } else {
      assert (p + [""])[1..] == p[1..] + [""] && (p + ["*"])[1..] == p[1..] + ["*"];
      DotNeverBeforeStar(p[1..], labels[1..]);
    }
  }

  /** If `*.w` is filed, a domain one label below w is never found through `.w`. */
  lemma StarBeforeDot<D>(list: seq<Insertion<D>>, q: string, ws: seq<string>)
    requires Labels(q).Some? && |Split(q)| == |ws| + 1 && Split(q)[1..] == ws
    requires Live(list, Rev(ws) + ["*"])
    ensures SearchDomain(TableOf(list), q).Some? && SearchDomain(TableOf(list), q).value != Rev(ws) + [""]
  {
    hide Split, Rev, TableOf, SearchDomain, Live, Matches, Precedes;
    SearchableIff(q);
    var qs := Split(q);
    var p, labels := Rev(ws), Rev(qs);
    assert qs == [qs[0]] + ws;
    RevCons(qs[0], ws);
    TailNoneEmpty(qs);
    LabelsOf(ws);
    LabelsOf(qs);
    StarMatches(p, qs[0]);
    DotNeverBeforeStar(p, labels);
    TrieRefinesPatternList(list, q);
    assert p + [""] != p + ["*"] by { assert (p + [""])[|p|] != (p + ["*"])[|p|]; }
  }

  lemma TailNoneEmpty(qs: seq<string>)
    requires qs != [] && NoneEmpty(qs)
    ensures NoneEmpty(qs[1..])
  {
  }

  lemma {:induction false} StarMatches(p: seq<string>, l: string)
    requires NoneEmpty(p)
    ensures Matches(p + ["*"], p + [l])
  {
    if p == [] {
      assert p + ["*"] == ["*"] && p + [l] == [l];
    } else {
      assert (p + ["*"])[1..] == p[1..] + ["*"] && (p + [l])[1..] == p[1..] + [l];
      StarMatches(p[1..], l);
    }
  }

  // -------- validity --------

  /** A dot with nothing, or another dot, behind it. */
  ghost predicate DotAt(s: string, i: int) {
    0 <= i < |s| && s[i] == '.' && (i == |s| - 1 || s[i + 1] == '.')
  }

  lemma FirstPart(s: string)
    ensures Split(s)[0] == "" <==> s == "" || s[0] == '.'
  {
  }

  lemma {:induction false} InnerEmpty(s: string)
    ensures (exists i :: 1 <= i < |Split(s)| && Split(s)[i] == "") <==> exists i :: DotAt(s, i)
  {
    hide Split;
    if s == "" {
      SplitEmpty();
    } else {
      var rest := s[1..];
      InnerEmpty(rest);
      SplitCons(s);
      FirstPart(rest);
      assert forall i :: DotAt(rest, i) ==> DotAt(s, i + 1);
      assert forall i :: DotAt(s, i) && i > 0 ==> DotAt(rest, i - 1);
      var ps, rs := Split(s), Split(rest);
      if s[0] == '.' {
        assert forall i :: 0 <= i < |rs| ==> ps[i + 1] == rs[i];
        assert DotAt(s, 0) <==> rs[0] == "";
      } else {
        assert forall i :: 1 <= i < |rs| ==> ps[i] == rs[i];
        assert !DotAt(s, 0);
      }
    }
  }

  /** A domain or pattern is valid exactly if it is not empty, does not end in a dot, and has no two dots in a row. */
  lemma ValidIff(s: string)
    ensures ValidAndSplit(s).Some? <==> s != "" && !exists i :: DotAt(s, i)
  {
    hide Split;
    InnerEmpty(s);
    FirstPart(s);
    if s == "" {
      SplitEmpty();
    } else {
      assert s[|s| - 1] == '.' ==> DotAt(s, |s| - 1);
      WholePart(s);
    }
  }
}
