/**
 Domain suffix rules (rule/domain_suffix.go): every value v of a rule is filed in a domain trie as the pattern
 `+.v`, and a target is matched by searching for it.
 */
module SuffixRule {
  import opened Common
  import opened DomainTrie

  // -------- splitting and joining --------

  lemma PushJoin(c: char, parts: seq<string>)
    requires parts != []
    ensures Join(Push(c, parts)) == [c] + Join(parts)
  {
    if c == '.' {
      assert ([""] + parts)[1..] == parts;
    } else if |parts| > 1 {
      assert Push(c, parts)[1..] == parts[1..];
      assert ([c] + parts[0]) + "." + Join(parts[1..]) == [c] + (parts[0] + "." + Join(parts[1..]));
    }
  }

  lemma {:induction false} JoinSplit(s: string)
    ensures Join(Split(s)) == s
  {
    if s != "" {
      hide Push, Join;
      JoinSplit(s[1..]);
      PushJoin(s[0], Split(s[1..]));
    } else {
      assert Join([""]) == "";
    }
  }

  lemma PushConcat(c: char, a: seq<string>, b: seq<string>)
    requires a != []
    ensures Push(c, a + b) == Push(c, a) + b
  {
    assert (a + b)[1..] == a[1..] + b && (a + b)[0] == a[0];
  }

  lemma {:induction false} SplitConcat(a: string, b: string)
    ensures Split(a + "." + b) == Split(a) + Split(b)
  {
    var s := a + "." + b;
    if a == "" {
      assert s == "." + b && s[1..] == b;
      assert Split(s) == Push('.', Split(b)) == [""] + Split(b);
    } else {
      hide Push;
      assert s[1..] == a[1..] + "." + b && s[0] == a[0];
      SplitConcat(a[1..], b);
      PushConcat(a[0], Split(a[1..]), Split(b));
    }
  }

  lemma {:induction false} JoinConcat(a: seq<string>, b: seq<string>)
    requires a != [] && b != []
    ensures Join(a + b) == Join(a) + "." + Join(b)
  {
    if |a| == 1 {
      assert (a + b)[1..] == b;
    } else {
      JoinConcat(a[1..], b);
      assert (a + b)[1..] == a[1..] + b;
      assert a[0] + "." + (Join(a[1..]) + "." + Join(b)) == (a[0] + "." + Join(a[1..])) + "." + Join(b);
    }
  }

  predicate EndsWith(t: string, v: string) {
    |t| >= |v| && t[|t| - |v|..] == v
  }

  /** t is v itself, or a subdomain of v. */
  predicate IsUnder(t: string, v: string) {
    t == v || EndsWith(t, "." + v)
  }

  predicate EndsWithParts(ts: seq<string>, vs: seq<string>) {
    |ts| >= |vs| && ts[|ts| - |vs|..] == vs
  }

  /** On strings and on labels, being under a domain is the same thing. */
  lemma UnderIffParts(t: string, v: string)
    ensures IsUnder(t, v) <==> EndsWithParts(Split(t), Split(v))
    ensures t == v <==> Split(t) == Split(v)
    ensures EndsWithParts(Split(t), Split(v)) && t != v ==> |v| < |t|
  {
    hide Split, Join;
    JoinSplit(t);
    JoinSplit(v);
    if EndsWith(t, "." + v) {
      UnderHasParts(t, v);
    }
    if EndsWithParts(Split(t), Split(v)) && t != v {
      PartsAreUnder(t, v);
    }
  }

  lemma UnderHasParts(t: string, v: string)
    requires EndsWith(t, "." + v)
    ensures EndsWithParts(Split(t), Split(v))
  {
    hide Split;
    var u := t[..|t| - |v| - 1];
    assert t == u + "." + v;
    SplitConcat(u, v);
  }

  lemma PartsAreUnder(t: string, v: string)
    requires EndsWithParts(Split(t), Split(v)) && t != v
    ensures EndsWith(t, "." + v)
  {
    hide Split, Join;
    JoinSplit(t);
    JoinSplit(v);
    var ts, vs := Split(t), Split(v);
    var us := ts[..|ts| - |vs|];
    assert ts == us + vs;
    assert us == [] ==> ts == vs;
    JoinConcat(us, vs);
    EndOfConcat(Join(us), "." + v);
    assert Join(us) + "." + v == Join(us) + ("." + v);
  }

  lemma EndOfConcat(a: string, b: string)
    ensures EndsWith(a + b, b)
  {
  }

  // -------- reversed labels --------

  lemma RevSuffix(ts: seq<string>, vs: seq<string>)
    ensures EndsWithParts(ts, vs) <==> Rev(vs) <= Rev(ts)
  {
    if |ts| >= |vs| {
      var end := ts[|ts| - |vs|..];
      forall i | 0 <= i < |vs| ensures Rev(vs)[i] == vs[|vs| - 1 - i] && Rev(ts)[i] == end[|vs| - 1 - i] {
        RevAt(vs, i);
        RevAt(ts, i);
      }
      if Rev(vs) <= Rev(ts) {
        forall j | 0 <= j < |vs| ensures end[j] == vs[j] {
          assert Rev(vs)[|vs| - 1 - j] == Rev(ts)[|vs| - 1 - j];
        }
      }
    }
  }

  lemma {:induction false} RevCons(l: string, vs: seq<string>)
    ensures Rev([l] + vs) == Rev(vs) + [l]
  {
    var s := [l] + vs;
    if vs == [] {
      assert s[..0] == [];
    } else {
      assert s[..|s| - 1] == [l] + vs[..|vs| - 1];
      RevCons(l, vs[..|vs| - 1]);
    }
  }

  lemma RevInjective(a: seq<string>, b: seq<string>)
    requires Rev(a) == Rev(b)
    ensures a == b
  {
    RevSuffix(a, b);
  }

  // -------- what a plain value matches --------

  predicate Plain(parts: seq<string>) {
    NoneEmpty(parts) && WILDCARD !in parts
  }

  lemma {:induction false} PlainMatch(p: seq<string>, labels: seq<string>)
    requires Plain(p)
    ensures Matches(p, labels) <==> p == labels
    ensures Matches(p + [DOT_WILDCARD], labels) <==> p < labels
  {
    if p == [] {
      assert p + [DOT_WILDCARD] == [DOT_WILDCARD];
    } else {
      assert (p + [DOT_WILDCARD])[1..] == p[1..] + [DOT_WILDCARD];
      assert p == [p[0]] + p[1..];
      if labels != [] {
        assert labels == [labels[0]] + labels[1..];
        PlainMatch(p[1..], labels[1..]);
      }
    }
  }

  lemma {:induction false} LastPart(s: string)
    requires s != ""
    ensures s[|s| - 1] == '.' <==> Split(s)[|Split(s)| - 1] == ""
  {
    hide Split;
    SplitCons(s);
    var rest := s[1..];
    if rest == "" {
      SplitEmpty();
    } else {
      LastPart(rest);
      WholePart(rest);
    }
  }

  lemma SplitCons(s: string)
    requires s != ""
    ensures Split(s) == Push(s[0], Split(s[1..]))
  {
  }

  lemma SplitEmpty()
    ensures Split("") == [""]
  {
  }

  lemma WholePart(s: string)
    requires s != ""
    ensures |Split(s)| == 1 ==> Split(s)[0] != ""
  {
    hide Split;
    JoinSplit(s);
  }

  /** A domain can be searched for exactly when none of its labels is empty. */
  lemma SearchableIff(t: string)
    ensures Labels(t).Some? <==> NoneEmpty(Split(t))
    ensures Labels(t).Some? ==> Labels(t).value == Rev(Split(t))
  {
    if t != "" {
      LastPart(t);
    }
    assert Split(t)[0] != "" && (forall i :: 1 <= i < |Split(t)| ==> Split(t)[i] != "") ==> NoneEmpty(Split(t));
  }

  function Pattern(v: string): string {
    "+." + v
  }

  lemma PatternSplit(v: string)
    ensures Split(Pattern(v)) == ["+"] + Split(v)
  {
    assert "+"[1..] == "" && "+" + "." == "+.";
    assert Split("+") == Push('+', [""]) == [['+'] + ""];
    assert ['+'] + "" == "+";
    SplitConcat("+", v);
  }

  lemma PatternPaths(v: string)
    ensures Paths(Pattern(v)) ==
            if NoneEmpty(Split(v)) then [Rev(Split(v)), Rev(Split(v)) + [DOT_WILDCARD]] else []
  {
    hide Split, Rev;
    PatternSplit(v);
    RevCons(DOT_WILDCARD, Split(v));
    LastPart(Pattern(v));
    var vs, parts := Split(v), Split(Pattern(v));
    assert parts[1..] == vs && forall i :: 1 <= i < |parts| ==> parts[i] == vs[i - 1];
    assert NoneEmpty(vs) <==> forall i :: 1 <= i < |parts| ==> parts[i] != "";
  }

  /** The path a value under t is found by: its labels, and a dot wildcard if t has more. */
  ghost function PathFor(t: string, v: string): seq<string> {
    if t == v then Rev(Split(v)) else Rev(Split(v)) + [DOT_WILDCARD]
  }

  lemma UnderPlain(t: string, v: string)
    requires NoneEmpty(Split(t)) && IsUnder(t, v) && WILDCARD !in Split(v)
    ensures Plain(Rev(Split(v))) && NoneEmpty(Split(v))
  {
    UnderIffParts(t, v);
    var ts, vs := Split(t), Split(v);
    forall i | 0 <= i < |vs| ensures vs[i] != "" {
      assert vs[i] == ts[|ts| - |vs| + i];
    }
    forall i | 0 <= i < |vs| ensures Rev(vs)[i] in vs {
      RevAt(vs, i);
    }
  }

  /** Among the paths of a value, those that match t: the one above if t is under the value, else none. */
  lemma ValueMatches(t: string, v: string, p: seq<string>)
    requires NoneEmpty(Split(t)) && WILDCARD !in Split(v)
    ensures p in Paths(Pattern(v)) && Matches(p, Rev(Split(t))) <==> IsUnder(t, v) && p == PathFor(t, v)
  {
    hide Split, Rev, Matches;
    PatternPaths(v);
    UnderIffParts(t, v);
    var ts, vs := Split(t), Split(v);
    RevSuffix(ts, vs);
    if NoneEmpty(vs) {
      PlainRev(vs);
      PlainMatch(Rev(vs), Rev(ts));
      if Rev(vs) == Rev(ts) {
        RevInjective(vs, ts);
      }
    }
    if IsUnder(t, v) {
      UnderPlain(t, v);
    }
  }

  lemma PlainRev(vs: seq<string>)
    requires NoneEmpty(vs) && WILDCARD !in vs
    ensures Plain(Rev(vs))
  {
    forall i | 0 <= i < |vs| ensures Rev(vs)[i] in vs && Rev(vs)[i] != "" {
      RevAt(vs, i);
    }
  }

  /** Of two values t is under, the preferred path is the longer value's. */
  lemma {:induction false} PreferredIsLonger(a: seq<string>, b: seq<string>, labels: seq<string>)
    requires a <= labels && b <= labels && NoneEmpty(labels)
    requires var p := if a == labels then a else a + [DOT_WILDCARD];
             var q := if b == labels then b else b + [DOT_WILDCARD];
             Precedes(p, q, labels)
    ensures |b| < |a|
  {
    if a != [] && b != [] {
      assert labels != [];
      assert a == [labels[0]] + a[1..] && b == [labels[0]] + b[1..] && labels == [labels[0]] + labels[1..];
      assert (a + [DOT_WILDCARD])[1..] == a[1..] + [DOT_WILDCARD] && (b + [DOT_WILDCARD])[1..] == b[1..] + [DOT_WILDCARD];
      PreferredIsLonger(a[1..], b[1..], labels[1..]);
    }
  }

  // -------- the rule --------

  /** A value and the data filed with it. */
  datatype Entry<D> = Entry(value: string, data: D)

  function Filing<D>(entries: seq<Entry<D>>): (list: seq<Insertion<D>>)
    ensures |list| == |entries|
    ensures forall i :: 0 <= i < |list| ==> list[i] == Insertion(Pattern(entries[i].value), Some(entries[i].data))
  {
    seq(|entries|, i requires 0 <= i < |entries| => Insertion(Pattern(entries[i].value), Some(entries[i].data)))
  }

  function MatchOf<D>(entries: seq<Entry<D>>, t: string): Option<D> {
    var table := TableOf(Filing(entries));
    match SearchDomain(table, t)
    case None => None
    case Some(p) => if p in table then Some(table[p]) else None
  }

  /** The entry that decides: under which t falls, longest, and last among equals. */
  ghost predicate Decides<D>(entries: seq<Entry<D>>, t: string, k: int) {
    && 0 <= k < |entries| && IsUnder(t, entries[k].value)
    && forall i :: 0 <= i < |entries| && IsUnder(t, entries[i].value) ==>
         |entries[i].value| < |entries[k].value| || (entries[i].value == entries[k].value && i <= k)
  }

  /**
   Suffix rules mean suffixes. For values without wildcards, a target matches exactly when none of its labels
   is empty and it equals some value or ends in a dot and that value; what is reported is the entry with the
   longest such value, the last one filed if there are several.
   */
  lemma SuffixRulesMeanSuffixes<D>(entries: seq<Entry<D>>, t: string)
    requires forall i :: 0 <= i < |entries| ==> WILDCARD !in Split(entries[i].value)
    ensures MatchOf(entries, t).Some? <==>
            NoneEmpty(Split(t)) && exists i :: 0 <= i < |entries| && IsUnder(t, entries[i].value)
    ensures MatchOf(entries, t).Some? ==>
              exists k :: Decides(entries, t, k) && MatchOf(entries, t).value == entries[k].data
  {
    SearchableIff(t);
    if NoneEmpty(Split(t)) {
      Decision(entries, t);
    }
  }

  lemma Decision<D>(entries: seq<Entry<D>>, t: string)
    requires forall i :: 0 <= i < |entries| ==> WILDCARD !in Split(entries[i].value)
    requires NoneEmpty(Split(t))
    ensures MatchOf(entries, t).Some? <==> exists i :: 0 <= i < |entries| && IsUnder(t, entries[i].value)
    ensures MatchOf(entries, t).Some? ==>
              exists k :: Decides(entries, t, k) && MatchOf(entries, t).value == entries[k].data
  {
    hide Split, Rev, Matches, Precedes, IsUnder, Paths, TableOf, SearchDomain, Latest, Labels, NoneEmpty, Pattern;
    var list := Filing(entries);
    var labels := Rev(Split(t));
    SearchableIff(t);
    TrieRefinesPatternList(list, t);
    SomePatternMatches(list, t);
    var r := SearchDomain(TableOf(list), t);
    if r.Some? {
      var k := Latest(list, r.value);
      LastFiled(list, r.value);
      ValueMatches(t, entries[k].value, r.value);
      forall i | 0 <= i < |entries| && IsUnder(t, entries[i].value)
        ensures |entries[i].value| < |entries[k].value| || (entries[i].value == entries[k].value && i <= k)
      {
        var p := PathFor(t, entries[i].value);
        ValueMatches(t, entries[i].value, p);
        assert p in Paths(list[i].domain) && Live(list, p) by { LastFiled(list, p); }
        Beaten(t, entries[k].value, entries[i].value);
        LastFiled(list, r.value);
      }
      assert Decides(entries, t, k);
    }
    forall i | 0 <= i < |entries| && IsUnder(t, entries[i].value) ensures r.Some? {
      ValueMatches(t, entries[i].value, PathFor(t, entries[i].value));
      assert PatternMatches(list[i].domain, labels);
    }
  }

  lemma LastFiled<D>(list: seq<Insertion<D>>, path: seq<string>)
    ensures var k := Latest(list, path);
            && (k >= 0 ==> path in Paths(list[k].domain))
            && forall j :: 0 <= j < |list| && path in Paths(list[j].domain) ==> j <= k
  {
    hide Latest, Paths;
    LatestFiles(list, path);
    forall j | 0 <= j < |list| && path in Paths(list[j].domain) ensures j <= Latest(list, path) {
      assert Files(list[j], path);
    }
  }

  lemma SamePath(t: string, v: string, w: string)
    requires NoneEmpty(Split(t)) && IsUnder(t, v) && IsUnder(t, w) && PathFor(t, v) == PathFor(t, w)
    ensures v == w
  {
    hide Split, Rev, IsUnder;
    LabelsOf(Split(t));
    DotNotPlain(Rev(Split(v)));
    DotNotPlain(Rev(Split(w)));
    if t != v {
      assert Rev(Split(v)) == PathFor(t, v)[..|PathFor(t, v)| - 1] == Rev(Split(w));
      RevInjective(Split(v), Split(w));
      UnderIffParts(v, w);
    }
  }

  lemma DotNotPlain(p: seq<string>)
    ensures !NoneEmpty(p + [DOT_WILDCARD])
  {
    assert (p + [DOT_WILDCARD])[|p|] == DOT_WILDCARD;
  }

  /** If both values have t under them, either they are the same or preference goes to the longer. */
  lemma Beaten(t: string, v: string, w: string)
    requires NoneEmpty(Split(t)) && IsUnder(t, v) && IsUnder(t, w)
    ensures PathFor(t, v) == PathFor(t, w) ==> v == w
    ensures Precedes(PathFor(t, v), PathFor(t, w), Rev(Split(t))) ==> |w| < |v|
  {
    hide Split, Precedes, Rev, IsUnder;
    var ts, vs, ws := Split(t), Split(v), Split(w);
    UnderIffParts(t, v);
    UnderIffParts(t, w);
    RevSuffix(ts, vs);
    RevSuffix(ts, ws);
    if PathFor(t, v) == PathFor(t, w) {
      SamePath(t, v, w);
    }
    if Precedes(PathFor(t, v), PathFor(t, w), Rev(ts)) {
      LabelsOf(ts);
      if Rev(vs) == Rev(ts) { RevInjective(vs, ts); }
      if Rev(ws) == Rev(ts) { RevInjective(ws, ts); }
      PreferredIsLonger(Rev(vs), Rev(ws), Rev(ts));
      assert Rev(ws) <= Rev(vs);
      RevSuffix(vs, ws);
      UnderIffParts(v, w);
    }
  }

  lemma LabelsOf(ts: seq<string>)
    requires NoneEmpty(ts)
    ensures NoneEmpty(Rev(ts))
  {
    forall i | 0 <= i < |ts| ensures Rev(ts)[i] != "" {
      RevAt(ts, i);
    }
  }

  // -------- the rule as the source runs it --------

  datatype RuleItem = RuleItem(name: string, values: seq<string>)

  /** The entries of a list of rules, in the order they are filed. */
  function EntriesOf(rules: seq<RuleItem>): seq<Entry<RuleItem>> {
    if rules == [] then [] else EntriesOf(rules[..|rules| - 1]) + ValuesOf(rules[|rules| - 1], |rules[|rules| - 1].values|)
  }

  function ValuesOf(rule: RuleItem, n: nat): (r: seq<Entry<RuleItem>>)
    requires n <= |rule.values|
    ensures |r| == n
  {
    seq(n, j requires 0 <= j < n => Entry(rule.values[j], rule))
  }

  lemma FilingOneMore<D>(entries: seq<Entry<D>>, e: Entry<D>)
    ensures TableOf(Filing(entries + [e])) == FileUnder(TableOf(Filing(entries)), Paths(Pattern(e.value)), Some(e.data))
  {
    var list := Filing(entries + [e]);
    assert list[..|list| - 1] == Filing(entries);
  }

  lemma NothingFiled<D>()
    ensures TableOf(Filing<D>([])) == map[]
  {
  }

  lemma OneMoreValue(before: seq<Entry<RuleItem>>, rule: RuleItem, j: nat)
    requires j < |rule.values|
    ensures before + ValuesOf(rule, j + 1) == (before + ValuesOf(rule, j)) + [Entry(rule.values[j], rule)]
  {
    assert ValuesOf(rule, j + 1) == ValuesOf(rule, j) + [Entry(rule.values[j], rule)];
  }

  method FileValues(index: DomainIndex<RuleItem>, rule: RuleItem, ghost before: seq<Entry<RuleItem>>)
    requires index.Valid() && index.trie.Table() == TableOf(Filing(before))
    modifies index.trie, set p | p in index.trie.nodes :: index.trie.nodes[p]
    ensures index.Valid() && index.trie.Grown()
    ensures index.trie.Table() == TableOf(Filing(before + ValuesOf(rule, |rule.values|)))
  {
    hide TableOf, Filing, FileUnder, Paths, ValuesOf, Filled, Tree;
    NoValues(before, rule);
    for j := 0 to |rule.values|
      invariant index.Valid() && index.trie.Grown()
      invariant index.trie.Table() == TableOf(Filing(before + ValuesOf(rule, j)))
    {
      OneMoreValue(before, rule, j);
      FilingOneMore(before + ValuesOf(rule, j), Entry(rule.values[j], rule));
      var _ := index.Insert("+." + rule.values[j], Some(rule));
    }
  }

  method BuildIndex(rules: seq<RuleItem>) returns (index: DomainIndex<RuleItem>)
    ensures fresh(index) && index.Valid() && index.trie.Table() == TableOf(Filing(EntriesOf(rules)))
  {
    hide TableOf, Filing, Filled, Tree, ValuesOf;
    index := new DomainIndex<RuleItem>();
    NothingFiled<RuleItem>();
    for i := 0 to |rules|
      invariant fresh(index) && fresh(index.trie) && forall p :: p in index.trie.nodes ==> fresh(index.trie.nodes[p])
      invariant index.Valid() && index.trie.Table() == TableOf(Filing(EntriesOf(rules[..i])))
    {
      EntriesStep(rules, i);
      FileValues(index, rules[i], EntriesOf(rules[..i]));
    }
    assert rules[..|rules|] == rules;
  }

  lemma EntriesStep(rules: seq<RuleItem>, i: nat)
    requires i < |rules|
    ensures EntriesOf(rules[..i + 1]) == EntriesOf(rules[..i]) + ValuesOf(rules[i], |rules[i].values|)
  {
    assert rules[..i + 1][..i] == rules[..i];
  }

  lemma NoValues(before: seq<Entry<RuleItem>>, rule: RuleItem)
    ensures before + ValuesOf(rule, 0) == before
  {
  }

  class DomainSuffixRule {
    var result: Option<RuleItem>
    const t: DomainIndex<RuleItem>
    ghost const entries: seq<Entry<RuleItem>>

    ghost predicate Valid()
      reads this, t, t.trie, set p | p in t.trie.nodes :: t.trie.nodes[p]
    {
      t.Valid() && t.trie.Table() == TableOf(Filing(entries))
    }

    constructor (rules: seq<RuleItem>)
      ensures Valid() && entries == EntriesOf(rules) && result == None
    {
      hide TableOf, Filing, Filled, Tree, EntriesOf;
      var index := BuildIndex(rules);
      t, result := index, None;
      entries := EntriesOf(rules);
    }

    /** Matches a target, if there is one; the rule that decided is remembered. */
    method Match(target: Option<string>) returns (ok: bool)
      requires Valid()
      modifies this`result
      ensures Valid()
      ensures ok == (target.Some? && MatchOf(entries, target.value).Some?)
      ensures result == if ok then MatchOf(entries, target.value) else old(result)
    {
      hide TableOf, Filing, Filled, Tree, Search;
      if target == None {
        return false;
      }
      if |target.value| == 0 {
        SearchableIff(target.value);
        return false;
      }
      var r := t.Lookup(target.value);
      if r == None {
        return false;
      }
      result := r;
      return true;
    }
  }
}
