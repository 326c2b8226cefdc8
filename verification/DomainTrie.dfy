/**
 The domain trie (util/trie/domain.go, util/trie/node.go): patterns with wildcards are filed label by label
 from the top-level domain down, and a search backtracks through the static, `*` and leading-dot branches.
 */
module DomainTrie {
  import opened Common

  const WILDCARD: string := "*"
  const DOT_WILDCARD: string := ""
  const COMPLEX_WILDCARD: string := "+"

  // -------- splitting domains --------

  /** The parts of a string that starts with one more character. */
  function Push(c: char, parts: seq<string>): (r: seq<string>)
    requires parts != []
    ensures r != []
  {
    if c == '.' then [""] + parts else [[c] + parts[0]] + parts[1..]
  }

  /** The parts of a string between its dots. */
  function Split(s: string): (parts: seq<string>)
    ensures parts != []
  {
    if s == "" then [""] else Push(s[0], Split(s[1..]))
  }

  function Join(parts: seq<string>): string
    requires parts != []
  {
    if |parts| == 1 then parts[0] else parts[0] + "." + Join(parts[1..])
  }

  /** The labels of a valid domain: no empty label except perhaps the first of several. */
  function ValidAndSplit(domain: string): Option<seq<string>> {
    if domain != "" && domain[|domain| - 1] == '.' then None
    else
      var parts := Split(domain);
      if |parts| == 1 then if parts[0] == "" then None else Some(parts)
      else if exists i :: 1 <= i < |parts| && parts[i] == "" then None
      else Some(parts)
  }

  method ValidAndSplitDomain(domain: string) returns (r: Option<seq<string>>)
    ensures r == ValidAndSplit(domain)
  {
    if domain != "" && domain[|domain| - 1] == '.' {
      return None;
    }
    var parts := Split(domain);
    if |parts| == 1 {
      return if parts[0] == "" then None else Some(parts);
    }
    for i := 1 to |parts|
      invariant forall j :: 1 <= j < i ==> parts[j] != ""
    {
      if parts[i] == "" {
        return None;
      }
    }
    return Some(parts);
  }

  // -------- paths, matching and priority --------

  /** Labels in the order the trie uses them, top-level domain first. */
  function Rev<L>(parts: seq<L>): (r: seq<L>)
    ensures |r| == |parts|
  {
    if parts == [] then [] else [parts[|parts| - 1]] + Rev(parts[..|parts| - 1])
  }

  /** A dot wildcard may only end a path. */
  predicate WellFormed(path: seq<string>) {
    forall i :: 0 <= i < |path| - 1 ==> path[i] != DOT_WILDCARD
  }

  /** Does a pattern, as a path, match a domain's labels? A final dot wildcard stands for one label or more. */
  predicate Matches(pattern: seq<string>, labels: seq<string>) {
    if pattern == [] then labels == []
    else if pattern == [DOT_WILDCARD] then labels != []
    else labels != [] && (pattern[0] == labels[0] || pattern[0] == WILDCARD) && Matches(pattern[1..], labels[1..])
  }

  /** Preference among ways to match one label: the label itself, then `*`, then the dot wildcard. */
  function Rank(part: string, actual: string): nat {
    if part == actual then 0 else if part == WILDCARD then 1 else 2
  }

  /** From the top-level domain down, the first label on which two patterns differ prefers the first pattern. */
  predicate Precedes(p: seq<string>, q: seq<string>, labels: seq<string>) {
    && p != [] && q != [] && labels != []
    && (Rank(p[0], labels[0]) < Rank(q[0], labels[0])
        || (p[0] == q[0] && Precedes(p[1..], q[1..], labels[1..])))
  }

  /** The backtracking search over the paths that carry data. */
  function Search<D>(t: map<seq<string>, D>, at: seq<string>, labels: seq<string>): (r: Option<seq<string>>)
    decreases |labels|
  {
    if labels == [] then if at in t then Some(at) else None
    else
      var exact := Search(t, at + [labels[0]], labels[1..]);
      if exact.Some? then exact
      else
        var wild := Search(t, at + [WILDCARD], labels[1..]);
        if wild.Some? then wild
        else if at + [DOT_WILDCARD] in t then Some(at + [DOT_WILDCARD])
        else None
  }

  predicate NoneEmpty(labels: seq<string>) {
    forall i :: 0 <= i < |labels| ==> labels[i] != DOT_WILDCARD
  }

  /** What a search finds below a path: a filed match, preferred to every other. */
  lemma {:induction false} SearchFinds<D>(t: map<seq<string>, D>, at: seq<string>, labels: seq<string>)
    ensures var r := Search(t, at, labels);
            r.Some? ==> r.value in t && at <= r.value && Matches(r.value[|at|..], labels)
    decreases |labels|
  {
    if labels == [] {
      assert at[|at|..] == [];
    } else {
      SearchFinds(t, at + [labels[0]], labels[1..]);
      SearchFinds(t, at + [WILDCARD], labels[1..]);
      var r := Search(t, at, labels);
      if r.Some? {
        var rest := r.value[|at|..];
        assert r.value == at + [DOT_WILDCARD] ==> rest == [DOT_WILDCARD];
        assert r.value != at + [DOT_WILDCARD] ==> rest[1..] == r.value[|at| + 1..];
      }
    }
  }

  lemma {:induction false} SearchPrefers<D>(t: map<seq<string>, D>, at: seq<string>, labels: seq<string>, other: seq<string>)
    requires NoneEmpty(labels) && WellFormed(other) && at + other in t && Matches(other, labels)
    ensures var r := Search(t, at, labels);
            r.Some? && at <= r.value && (r.value == at + other || Precedes(r.value[|at|..], other, labels))
    decreases |labels|
  {
    SearchFinds(t, at, labels);
    if labels == [] {
      assert at + other == at;
    } else {
      SearchFinds(t, at + [labels[0]], labels[1..]);
      SearchFinds(t, at + [WILDCARD], labels[1..]);
      var r := Search(t, at, labels);
      if other != [DOT_WILDCARD] {
        assert at + other == (at + [other[0]]) + other[1..];
        SearchPrefers(t, at + [other[0]], labels[1..], other[1..]);
      }
    }
  }

  // -------- from a list of patterns to paths --------

  /** An insertion; inserting without data takes back what is filed. */
  datatype Insertion<D> = Insertion(domain: string, data: Option<D>)

  /** The paths a pattern is filed under: `+.x` stands for both `x` and `.x`; an invalid pattern for none. */
  function Paths(domain: string): seq<seq<string>> {
    match ValidAndSplit(domain)
    case None => []
    case Some(parts) =>
      if parts[0] == COMPLEX_WILDCARD then [Rev(parts[1..]), Rev([DOT_WILDCARD] + parts[1..])]
      else [Rev(parts)]
  }

  function FileAt<L(==), D>(t: map<seq<L>, D>, path: seq<L>, data: Option<D>): map<seq<L>, D> {
    match data
    case Some(d) => t[path := d]
    case None => t - {path}
  }

  function FileUnder<D>(t: map<seq<string>, D>, paths: seq<seq<string>>, data: Option<D>): map<seq<string>, D>
    decreases |paths|
  {
    if paths == [] then t else FileUnder(FileAt(t, paths[0], data), paths[1..], data)
  }

  /** The data filed after a list of insertions. */
  function TableOf<D>(list: seq<Insertion<D>>): map<seq<string>, D>
    decreases |list|
  {
    if list == [] then map[]
    else
      var n := |list| - 1;
      FileUnder(TableOf(list[..n]), Paths(list[n].domain), list[n].data)
  }

  /** The labels to search for, if a domain can be searched for at all. */
  function Labels(domain: string): Option<seq<string>> {
    match ValidAndSplit(domain)
    case None => None
    case Some(parts) => if parts[0] == "" then None else Some(Rev(parts))
  }

  function SearchDomain<D>(t: map<seq<string>, D>, domain: string): Option<seq<string>> {
    match Labels(domain)
    case None => None
    case Some(labels) => Search(t, [], labels)
  }

  predicate Files<D>(e: Insertion<D>, path: seq<string>) {
    path in Paths(e.domain)
  }

  /** The last insertion that files under a path, or -1. */
  function Latest<D>(list: seq<Insertion<D>>, path: seq<string>): (i: int)
    ensures -1 <= i < |list|
    decreases |list|
  {
    hide Files;
    if list == [] then -1
    else
      var n := |list| - 1;
      if Files(list[n], path) then n else Latest(list[..n], path)
  }

  lemma {:induction false} LatestFiles<D>(list: seq<Insertion<D>>, path: seq<string>)
    ensures var i := Latest(list, path);
            (i >= 0 ==> Files(list[i], path)) && forall j :: i < j < |list| ==> !Files(list[j], path)
    decreases |list|
  {
    hide Files;
    if list != [] {
      LatestFiles(list[..|list| - 1], path);
    }
  }

  lemma {:induction false} FileUnderEntries<D>(t: map<seq<string>, D>, paths: seq<seq<string>>, data: Option<D>, path: seq<string>)
    ensures var r := FileUnder(t, paths, data);
            && (path in r <==> if path in paths then data.Some? else path in t)
            && (path in r ==> r[path] == if path in paths then data.value else t[path])
    decreases |paths|
  {
    if paths != [] {
      FileUnderEntries(FileAt(t, paths[0], data), paths[1..], data, path);
    }
  }

  /** Is something filed under the path at the end, the latest insertion under it being one with data? */
  predicate Live<D>(list: seq<Insertion<D>>, path: seq<string>) {
    Latest(list, path) >= 0 && list[Latest(list, path)].data.Some?
  }

  /** A path carries data exactly when the latest insertion under it has data, and then that data. */
  lemma {:induction false} TableEntries<D>(list: seq<Insertion<D>>, path: seq<string>)
    ensures path in TableOf(list) <==> Live(list, path)
    ensures path in TableOf(list) ==> TableOf(list)[path] == list[Latest(list, path)].data.value
    decreases |list|
  {
    hide Paths, FileUnder;
    if list != [] {
      var n := |list| - 1;
      TableEntries(list[..n], path);
      FileUnderEntries(TableOf(list[..n]), Paths(list[n].domain), list[n].data, path);
    }
  }

  lemma {:induction false} RevAt<L>(parts: seq<L>, i: nat)
    requires i < |parts|
    ensures Rev(parts)[i] == parts[|parts| - 1 - i]
  {
    if i > 0 {
      RevAt(parts[..|parts| - 1], i - 1);
    }
  }

  lemma RevWellFormed(parts: seq<string>)
    requires forall i :: 1 <= i < |parts| ==> parts[i] != DOT_WILDCARD
    ensures WellFormed(Rev(parts))
  {
    forall i | 0 <= i < |parts| - 1 ensures Rev(parts)[i] != DOT_WILDCARD {
      RevAt(parts, i);
    }
  }

  lemma PathsWellFormed(domain: string, path: seq<string>)
    requires path in Paths(domain)
    ensures WellFormed(path)
  {
    var parts := ValidAndSplit(domain).value;
    RevWellFormed(parts);
    RevWellFormed(parts[1..]);
    RevWellFormed([DOT_WILDCARD] + parts[1..]);
  }

  lemma LabelsNotEmpty(domain: string)
    requires Labels(domain).Some?
    ensures NoneEmpty(Labels(domain).value)
  {
    var parts := ValidAndSplit(domain).value;
    forall i | 0 <= i < |parts| ensures Rev(parts)[i] != DOT_WILDCARD {
      RevAt(parts, i);
    }
  }

  ghost predicate PatternMatches(pattern: string, labels: seq<string>) {
    exists p :: p in Paths(pattern) && Matches(p, labels)
  }

  /**
   The trie refines a list of patterns, for any insertions and any domain. A domain with an empty label is not
   found. Otherwise a search succeeds exactly when something live matches, its result is preferred to every other
   match, and its data is that of the latest insertion of that pattern.
   */
  lemma TrieRefinesPatternList<D>(list: seq<Insertion<D>>, domain: string)
    ensures var t := TableOf(list);
            var r := SearchDomain(t, domain);
            match Labels(domain)
            case None => r == None
            case Some(labels) =>
              && (r.Some? <==> exists p :: Live(list, p) && Matches(p, labels))
              && (r.Some? ==>
                    && Live(list, r.value) && Matches(r.value, labels)
                    && r.value in t && t[r.value] == list[Latest(list, r.value)].data.value
                    && forall p :: Live(list, p) && Matches(p, labels) ==> p == r.value || Precedes(r.value, p, labels))
  {
    hide Search, Matches, Precedes, TableOf, Paths, Latest, Labels, NoneEmpty;
    var t := TableOf(list);
    var r := SearchDomain(t, domain);
    if Labels(domain).Some? {
      var labels := Labels(domain).value;
      LabelsNotEmpty(domain);
      SearchFinds(t, [], labels);
      if r.Some? {
        assert r.value[0..] == r.value;
        TableEntries(list, r.value);
      }
      forall p | Live(list, p) && Matches(p, labels)
        ensures r.Some? && (p == r.value || Precedes(r.value, p, labels))
      {
        TableEntries(list, p);
        LatestFiles(list, p);
        PathsWellFormed(list[Latest(list, p)].domain, p);
        assert [] + p == p;
        SearchPrefers(t, [], labels, p);
        assert r.value[0..] == r.value;
      }
    }
  }

  ghost predicate AllWithData<D>(list: seq<Insertion<D>>) {
    forall i :: 0 <= i < |list| ==> list[i].data.Some?
  }

  /** When every insertion carries data, a search succeeds exactly when some inserted pattern matches. */
  lemma SomePatternMatches<D>(list: seq<Insertion<D>>, domain: string)
    requires AllWithData(list) && Labels(domain).Some?
    ensures var labels := Labels(domain).value;
            SearchDomain(TableOf(list), domain).Some? <==> exists i :: 0 <= i < |list| && PatternMatches(list[i].domain, labels)
  {
    hide Search, SearchDomain, Matches, TableOf, Paths, Latest, Labels;
    var labels := Labels(domain).value;
    TrieRefinesPatternList(list, domain);
    if p :| Live(list, p) && Matches(p, labels) {
      LatestFiles(list, p);
      assert PatternMatches(list[Latest(list, p)].domain, labels);
    }
    forall i | 0 <= i < |list| && PatternMatches(list[i].domain, labels) ensures exists p :: Live(list, p) && Matches(p, labels) {
      var p :| p in Paths(list[i].domain) && Matches(p, labels);
      LatestFiles(list, p);
      assert Files(list[i], p);
      assert Live(list, p);
    }
  }

  // -------- nodes --------

  class Node<L(==), D> {
    var children: map<L, Node<L, D>>
    var data: Option<D>

    constructor ()
      ensures children == map[] && data == None
    {
      children, data := map[], None;
    }
  }

  function Child<L>(p: seq<L>, l: L): seq<L> {
    p + [l]
  }

  function Parent<L>(p: seq<L>): seq<L>
    requires p != []
  {
    p[..|p| - 1]
  }

  function Last<L>(p: seq<L>): L
    requires p != []
  {
    p[|p| - 1]
  }

  lemma ChildParts<L>(p: seq<L>, l: L)
    ensures Child(p, l) != [] && Parent(Child(p, l)) == p && Last(Child(p, l)) == l && Child(p, l) != p
  {
  }

  ghost predicate OnePathEach<L, D>(nodes: map<seq<L>, Node<L, D>>) {
    forall p, q :: p in nodes && q in nodes && nodes[p] == nodes[q] ==> p == q
  }

  ghost predicate ChildrenNamed<L, D>(nodes: map<seq<L>, Node<L, D>>, kids: map<seq<L>, map<L, Node<L, D>>>) {
    forall p, l :: p in kids && l in kids[p] ==> Child(p, l) in nodes && nodes[Child(p, l)] == kids[p][l]
  }

  ghost predicate ParentsPresent<L, D>(nodes: map<seq<L>, Node<L, D>>, kids: map<seq<L>, map<L, Node<L, D>>>) {
    forall p :: p in nodes && p != [] ==> Parent(p) in kids && Last(p) in kids[Parent(p)]
  }

  /** The nodes, by path, and their child maps describe one tree: each node has one path, and paths are closed. */
  ghost predicate Tree<L, D>(root: Node<L, D>, nodes: map<seq<L>, Node<L, D>>, kids: map<seq<L>, map<L, Node<L, D>>>) {
    && kids.Keys == nodes.Keys && [] in nodes && nodes[[]] == root
    && OnePathEach(nodes) && ChildrenNamed(nodes, kids) && ParentsPresent(nodes, kids)
  }

  lemma OnePathGrows<L, D>(nodes: map<seq<L>, Node<L, D>>, path: seq<L>, child: Node<L, D>)
    requires OnePathEach(nodes) && forall p :: p in nodes ==> nodes[p] != child
    ensures OnePathEach(nodes[path := child])
  {
    var more := nodes[path := child];
    forall p, q | p in more && q in more && more[p] == more[q] ensures p == q {
      if p != path && q != path {
        assert p in nodes && q in nodes;
      }
    }
  }

  lemma ChildrenGrow<L, D>(nodes: map<seq<L>, Node<L, D>>, kids: map<seq<L>, map<L, Node<L, D>>>, at: seq<L>, part: L, child: Node<L, D>)
    requires ChildrenNamed(nodes, kids) && at in kids && part !in kids[at] && Child(at, part) !in nodes && Child(at, part) != at
    ensures ChildrenNamed(nodes[Child(at, part) := child], kids[at := kids[at][part := child]][Child(at, part) := map[]])
  {
    hide Child;
    var path := Child(at, part);
    var more, kids' := nodes[path := child], kids[at := kids[at][part := child]][path := map[]];
    forall p, l | p in kids' && l in kids'[p] ensures Child(p, l) in more && more[Child(p, l)] == kids'[p][l] {
      if p != at || l != part {
        assert p in kids && l in kids[p];
      }
    }
  }

  lemma ParentsGrow<L, D>(nodes: map<seq<L>, Node<L, D>>, kids: map<seq<L>, map<L, Node<L, D>>>, at: seq<L>, part: L, child: Node<L, D>)
    requires ParentsPresent(nodes, kids) && at in kids && kids.Keys == nodes.Keys && Child(at, part) !in nodes
    ensures ParentsPresent(nodes[Child(at, part) := child], kids[at := kids[at][part := child]][Child(at, part) := map[]])
  {
    ChildParts(at, part);
    hide Child, Parent, Last;
    var path := Child(at, part);
    var more, kids' := nodes[path := child], kids[at := kids[at][part := child]][path := map[]];
    forall p | p in more && p != [] ensures Parent(p) in kids' && Last(p) in kids'[Parent(p)] {
      if p != path {
        assert p in nodes;
        assert Parent(p) in kids && Last(p) in kids[Parent(p)];
      }
    }
  }

  lemma PathNew<L, D>(nodes: map<seq<L>, Node<L, D>>, kids: map<seq<L>, map<L, Node<L, D>>>, at: seq<L>, part: L)
    requires ParentsPresent(nodes, kids) && at in kids && part !in kids[at]
    ensures Child(at, part) !in nodes && Child(at, part) != at && Child(at, part) != []
  {
    ChildParts(at, part);
    hide Child, Parent, Last;
  }

  lemma TreeGrows<L, D>(root: Node<L, D>, nodes: map<seq<L>, Node<L, D>>, kids: map<seq<L>, map<L, Node<L, D>>>,
                        at: seq<L>, part: L, child: Node<L, D>)
    requires Tree(root, nodes, kids) && at in nodes && part !in kids[at] && forall p :: p in nodes ==> nodes[p] != child
    ensures Child(at, part) !in nodes
    ensures Tree(root, nodes[Child(at, part) := child], kids[at := kids[at][part := child]][Child(at, part) := map[]])
  {
    hide Child, ChildrenNamed, OnePathEach, ParentsPresent;
    var path := Child(at, part);
    PathNew(nodes, kids, at, part);
    OnePathGrows(nodes, path, child);
    ChildrenGrow(nodes, kids, at, part, child);
    ParentsGrow(nodes, kids, at, part, child);
  }

  ghost function Filled<L, D>(data: map<seq<L>, Option<D>>): map<seq<L>, D> {
    map p | p in data && data[p].Some? :: data[p].value
  }

  lemma FilledAt<L, D>(data: map<seq<L>, Option<D>>, p: seq<L>, d: Option<D>)
    ensures Filled(data[p := d]) == FileAt(Filled(data), p, d)
  {
  }

  lemma FilledNone<L, D>(data: map<seq<L>, Option<D>>, p: seq<L>)
    requires p !in data
    ensures Filled(data[p := None]) == Filled(data)
  {
  }

  lemma RevStep<L>(parts: seq<L>, i: nat)
    requires i < |parts|
    ensures Child(Rev(parts)[..i], parts[|parts| - 1 - i]) == Rev(parts)[..i + 1]
  {
    RevAt(parts, i);
  }

  /** A tree of nodes, with the path of every node recorded beside it. */
  class Trie<L(==), D> {
    const root: Node<L, D>
    ghost var nodes: map<seq<L>, Node<L, D>>

    ghost function Kids(): map<seq<L>, map<L, Node<L, D>>>
      reads this, set p | p in nodes :: nodes[p]
    {
      map p | p in nodes :: nodes[p].children
    }

    ghost predicate Valid()
      reads this, set p | p in nodes :: nodes[p]
    {
      Tree(root, nodes, Kids())
    }

    ghost function Data(): map<seq<L>, Option<D>>
      reads this, set p | p in nodes :: nodes[p]
    {
      map p | p in nodes :: nodes[p].data
    }

    /** The paths that carry data. */
    ghost function Table(): map<seq<L>, D>
      reads this, set p | p in nodes :: nodes[p]
    {
      Filled(Data())
    }

    constructor ()
      ensures Valid() && Table() == map[] && fresh(root)
      ensures forall p :: p in nodes ==> fresh(nodes[p])
    {
      root := new Node<L, D>();
      nodes := map[[] := root];
    }

    lemma RootPath()
      requires Valid()
      ensures [] in nodes && nodes[[]] == root
    {
    }

    lemma OnePath(at: seq<L>)
      requires Valid() && at in nodes
      ensures forall p :: p in nodes && nodes[p] == nodes[at] ==> p == at
    {
    }

    method AddChild(ghost at: seq<L>, node: Node<L, D>, part: L)
      requires Valid() && at in nodes && nodes[at] == node && part !in node.children
      modifies this, node
      ensures Valid() && at in nodes && nodes[at] == node
      ensures part in node.children && Table() == old(Table())
      ensures Child(at, part) in nodes && nodes == old(nodes)[Child(at, part) := nodes[Child(at, part)]]
      ensures fresh(nodes[Child(at, part)])
    {
      hide Tree, Child, Filled;
      var child := new Node<L, D>();
      assert forall p :: p in nodes ==> nodes[p] != child;
      TreeGrows(root, nodes, Kids(), at, part, child);
      OnePath(at);
      FilledNone(Data(), Child(at, part));
      Link(at, node, part, child);
    }

    /** Links a child to a node, and changes nothing else. */
    method Link(ghost at: seq<L>, node: Node<L, D>, part: L, child: Node<L, D>)
      requires at in nodes && nodes[at] == node && Child(at, part) !in nodes
      requires forall p :: p in nodes ==> nodes[p] != child && (nodes[p] == node ==> p == at)
      requires child.children == map[] && child.data == None
      modifies this, node`children
      ensures nodes == old(nodes)[Child(at, part) := child] && node.children == old(node.children)[part := child]
      ensures Kids() == old(Kids())[at := old(Kids())[at][part := child]][Child(at, part) := map[]]
      ensures Data() == old(Data())[Child(at, part) := None]
    {
      hide Child;
      SetChild(at, node, part, child);
      Name(Child(at, part), child);
    }

    method SetChild(ghost at: seq<L>, node: Node<L, D>, part: L, child: Node<L, D>)
      requires at in nodes && nodes[at] == node && forall p :: p in nodes && nodes[p] == node ==> p == at
      modifies node`children
      ensures Kids() == old(Kids())[at := old(Kids())[at][part := child]] && Data() == old(Data())
      ensures node.children == old(node.children)[part := child]
    {
      node.children := node.children[part := child];
    }

    ghost method Name(path: seq<L>, child: Node<L, D>)
      modifies this`nodes
      ensures nodes == old(nodes)[path := child]
      ensures Kids() == old(Kids())[path := child.children] && Data() == old(Data())[path := child.data]
    {
      nodes := nodes[path := child];
    }

    method SetData(ghost at: seq<L>, node: Node<L, D>, data: Option<D>)
      requires Valid() && at in nodes && nodes[at] == node
      modifies node`data
      ensures Valid() && Table() == FileAt(old(Table()), at, data)
    {
      hide Tree, Filled, FileAt;
      OnePath(at);
      FilledAt(Data(), at, data);
      node.data := data;
      assert Kids() == old(Kids()) && Data() == old(Data())[at := data];
    }

    /** The nodes are those there were, or new. */
    twostate predicate Grown()
      reads this
    {
      forall p :: p in nodes ==> (p in old(nodes) && nodes[p] == old(nodes)[p]) || fresh(nodes[p])
    }

    /** A child map and the paths agree on which children there are, and which nodes they are. */
    lemma ChildAt(at: seq<L>, l: L)
      requires Valid() && at in nodes
      ensures l in nodes[at].children <==> Child(at, l) in nodes
      ensures l in nodes[at].children ==> nodes[Child(at, l)] == nodes[at].children[l]
    {
      ChildParts(at, l);
      assert at in Kids();
    }

    method Descend(ghost at: seq<L>, node: Node<L, D>, part: L) returns (next: Node<L, D>)
      requires Valid() && at in nodes && nodes[at] == node
      modifies this, node
      ensures Valid() && Table() == old(Table()) && Grown()
      ensures Child(at, part) in nodes && nodes[Child(at, part)] == next
    {
      hide Tree, Child, Filled;
      if part !in node.children {
        AddChild(at, node, part);
      }
      next := node.children[part];
      ChildAt(at, part);
    }

    /** Files data under the reversed parts; nothing else changes. */
    method FileParts(parts: seq<L>, data: Option<D>)
      requires Valid()
      modifies this, set p | p in nodes :: nodes[p]
      ensures Valid() && Table() == FileAt(old(Table()), Rev(parts), data) && Grown()
    {
      hide Tree, Child, Rev, Filled, FileAt;
      var node := root;
      ghost var at: seq<L> := [];
      var i := |parts|;
      RootPath();
      while i > 0
        invariant 0 <= i <= |parts| && Valid() && Table() == old(Table()) && Grown()
        invariant at == Rev(parts)[..|parts| - i] && at in nodes && nodes[at] == node
      {
        RevStep(parts, |parts| - i);
        i := i - 1;
        node := Descend(at, node, parts[i]);
        at := Child(at, parts[i]);
      }
      assert at == Rev(parts);
      SetData(at, node, data);
    }

    lemma {:induction false} AbsentBelow(at: seq<L>, more: seq<L>)
      requires Valid() && at !in nodes
      ensures at + more !in nodes
      decreases |more|
    {
      if more == [] {
        assert at + more == at;
      } else {
        var n := |more| - 1;
        AbsentBelow(at, more[..n]);
        assert Parent(at + more) == at + more[..n];
      }
    }
  }

  // -------- the domain trie as the source runs it --------

  lemma SearchStep<D>(t: map<seq<string>, D>, at: seq<string>, parts: seq<string>)
    ensures parts == [] ==> Search(t, at, Rev(parts)) == if at in t then Some(at) else None
    ensures parts != [] ==>
              var rest := Rev(parts[..|parts| - 1]);
              var exact, wild := Search(t, Child(at, parts[|parts| - 1]), rest), Search(t, Child(at, WILDCARD), rest);
              && (exact.Some? ==> Search(t, at, Rev(parts)) == exact)
              && (exact == None && wild.Some? ==> Search(t, at, Rev(parts)) == wild)
              && (exact == None && wild == None ==>
                    Search(t, at, Rev(parts)) ==
                    if Child(at, DOT_WILDCARD) in t then Some(Child(at, DOT_WILDCARD)) else None)
  {
    if parts != [] {
      assert Rev(parts)[1..] == Rev(parts[..|parts| - 1]);
    }
  }

  lemma FileOne<D>(t: map<seq<string>, D>, p: seq<string>, data: Option<D>)
    ensures FileUnder(t, [p], data) == FileAt(t, p, data)
  {
    assert [p][1..] == [];
  }

  lemma FileTwo<D>(t: map<seq<string>, D>, p: seq<string>, q: seq<string>, data: Option<D>)
    ensures FileUnder(t, [p, q], data) == FileAt(FileAt(t, p, data), q, data)
  {
    hide FileAt;
    assert [p, q][1..] == [q];
    FileOne(FileAt(t, p, data), q, data);
  }

  /** A search that starts where there is no node finds nothing. */
  lemma SearchAbsent<D>(trie: Trie<string, D>, at: seq<string>, labels: seq<string>)
    requires trie.Valid() && at !in trie.nodes
    ensures Search(trie.Table(), at, labels) == None
  {
    hide Search, Tree;
    var r := Search(trie.Table(), at, labels);
    SearchFinds(trie.Table(), at, labels);
    if r.Some? {
      var more := r.value[|at|..];
      assert at + more == r.value && r.value in trie.nodes;
      trie.AbsentBelow(at, more);
      assert false;
    }
  }

  class DomainIndex<D> {
    const trie: Trie<string, D>

    ghost predicate Valid()
      reads this, trie, set p | p in trie.nodes :: trie.nodes[p]
    {
      trie.Valid()
    }

    constructor ()
      ensures Valid() && trie.Table() == map[] && fresh(trie) && forall p :: p in trie.nodes ==> fresh(trie.nodes[p])
    {
      trie := new Trie<string, D>();
    }

    /** The recursive search from a node. */
    method Find(node: Node<string, D>, parts: seq<string>, ghost at: seq<string>) returns (n: Node?<string, D>)
      requires Valid() && at in trie.nodes && trie.nodes[at] == node
      ensures match Search(trie.Table(), at, Rev(parts))
              case None => n == null || n.data == None
              case Some(p) => p in trie.nodes && n == trie.nodes[p] && n.data.Some?
      decreases |parts|
    {
      hide Search, Tree, Child;
      SearchStep(trie.Table(), at, parts);
      if |parts| == 0 {
        return node;
      }
      var last, front := parts[|parts| - 1], parts[..|parts| - 1];
      trie.ChildAt(at, last);
      trie.ChildAt(at, WILDCARD);
      trie.ChildAt(at, DOT_WILDCARD);
      if last in node.children {
        n := Find(node.children[last], front, Child(at, last));
        if n != null && n.data.Some? {
          return;
        }
      } else {
        SearchAbsent(trie, Child(at, last), Rev(front));
      }
      if WILDCARD in node.children {
        n := Find(node.children[WILDCARD], front, Child(at, WILDCARD));
        if n != null && n.data.Some? {
          return;
        }
      } else {
        SearchAbsent(trie, Child(at, WILDCARD), Rev(front));
      }
      n := if DOT_WILDCARD in node.children then node.children[DOT_WILDCARD] else null;
    }

    /** Inserts a pattern, with data or without, or reports that it is invalid. */
    method Insert(domain: string, data: Option<D>) returns (ok: bool)
      requires Valid()
      modifies trie, set p | p in trie.nodes :: trie.nodes[p]
      ensures Valid() && ok == ValidAndSplit(domain).Some?
      ensures trie.Table() == FileUnder(old(trie.Table()), Paths(domain), data) && trie.Grown()
    {
      hide Tree, Rev, Filled, FileUnder, FileAt;
      var split := ValidAndSplitDomain(domain);
      if split == None {
        FileNone(trie.Table(), data);
        return false;
      }
      var parts := split.value;
      if parts[0] == COMPLEX_WILDCARD {
        FileTwo(trie.Table(), Rev(parts[1..]), Rev([DOT_WILDCARD] + parts[1..]), data);
        trie.FileParts(parts[1..], data);
        trie.FileParts([DOT_WILDCARD] + parts[1..], data);
      } else {
        FileOne(trie.Table(), Rev(parts), data);
        trie.FileParts(parts, data);
      }
      return true;
    }

    /** Searches for a domain. */
    method Lookup(domain: string) returns (r: Option<D>)
      requires Valid()
      ensures match SearchDomain(trie.Table(), domain)
              case None => r == None
              case Some(p) => p in trie.Table() && r == Some(trie.Table()[p])
    {
      hide Search, Tree, Rev;
      assert [] in trie.nodes && trie.nodes[[]] == trie.root by { trie.RootPath(); }
      var split := ValidAndSplitDomain(domain);
      if split == None || split.value[0] == "" {
        return None;
      }
      var n := Find(trie.root, split.value, []);
      if n == null {
        return None;
      }
      r := n.data;
    }
  }

  lemma FileNone<D>(t: map<seq<string>, D>, data: Option<D>)
    ensures FileUnder(t, [], data) == t
  {
  }
}
