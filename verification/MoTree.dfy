/**
 The management object tree: src/acs/protocol/omadm/motree.py, and the interior nodes a push needs:
 src/acs/protocol/omadm/session.py, _interior_nodes_for.
 */
module MoTree {
  import opened Wrappers

  datatype NodeSource = Device | Server

  datatype MoNode = MoNode(uri: string, format: string, type_: string, source: NodeSource, feature: string) {
    predicate IsInterior() {
      format == "node"
    }
  }

  /** The objects of the tree, each a list of nodes. */
  datatype MoTree = MoTree(objects: seq<seq<MoNode>>)

  function Concat(objects: seq<seq<MoNode>>): seq<MoNode> {
    if objects == [] then [] else objects[0] + Concat(objects[1..])
  }

  function AllNodes(t: MoTree): seq<MoNode> {
    Concat(t.objects)
  }

  function StripSlashes(uri: string): string {
    if uri != "" && uri[|uri| - 1] == '/' then StripSlashes(uri[..|uri| - 1]) else uri
  }

  /** The last node with this address, as a dictionary keeps it. */
  function Lookup(nodes: seq<MoNode>, uri: string): Option<MoNode> {
    if nodes == [] then None
    else if nodes[|nodes| - 1].uri == uri then Some(nodes[|nodes| - 1])
    else Lookup(nodes[..|nodes| - 1], uri)
  }

  function Node(t: MoTree, uri: string): Option<MoNode> {
    Lookup(AllNodes(t), StripSlashes(uri))
  }

  /** An address names a node up to slashes at its end; a node whose own address ends in one is never named. */
  predicate Names(uri: string, node: string) {
    && |node| <= |uri| && uri[..|node|] == node && (forall k :: |node| <= k < |uri| ==> uri[k] == '/')
    && (node == "" || node[|node| - 1] != '/')
  }

  lemma {:induction false} StripSlashesIs(uri: string, node: string)
    ensures StripSlashes(uri) == node <==> Names(uri, node)
  {
    if uri == "" {
    } else if uri[|uri| - 1] == '/' {
      var shorter := uri[..|uri| - 1];
      StripSlashesIs(shorter, node);
      if Names(uri, node) {
        assert |node| < |uri|;
        assert shorter[..|node|] == node;
      }
      if Names(shorter, node) { assert uri[..|node|] == shorter[..|node|]; }
    } else if Names(uri, node) {
      assert |node| == |uri| && uri[..|uri|] == uri;
    }
  }

  /** Node i is the one an address names: the last of those with its address. */
  ghost predicate NamesAt(t: MoTree, uri: string, i: nat) {
    && i < |AllNodes(t)| && Names(uri, AllNodes(t)[i].uri)
    && forall j :: i < j < |AllNodes(t)| ==> AllNodes(t)[j].uri != AllNodes(t)[i].uri
  }

  ghost predicate NamesOne(t: MoTree, uri: string) {
    exists i :: 0 <= i < |AllNodes(t)| && Names(uri, AllNodes(t)[i].uri)
  }

  lemma {:induction false} LookupIsLast(nodes: seq<MoNode>, uri: string)
    ensures Lookup(nodes, uri).None? <==> forall i :: 0 <= i < |nodes| ==> nodes[i].uri != uri
    ensures forall i :: 0 <= i < |nodes| && nodes[i].uri == uri && (forall j :: i < j < |nodes| ==> nodes[j].uri != uri)
              ==> Lookup(nodes, uri) == Some(nodes[i])
  {
    if nodes != [] && nodes[|nodes| - 1].uri != uri { LookupIsLast(nodes[..|nodes| - 1], uri); }
  }

  /** An address leads to the node it names, if it names one. */
  lemma NodeIsNamed(t: MoTree, uri: string)
    ensures Node(t, uri).Some? <==> NamesOne(t, uri)
    ensures forall i: nat :: NamesAt(t, uri, i) ==> Node(t, uri) == Some(AllNodes(t)[i])
  {
    var node := StripSlashes(uri);
    LookupIsLast(AllNodes(t), node);
    forall i: nat | NamesAt(t, uri, i)
      ensures AllNodes(t)[i].uri == node
    {
      StripSlashesIs(uri, AllNodes(t)[i].uri);
    }
    forall i | 0 <= i < |AllNodes(t)|
      ensures Names(uri, AllNodes(t)[i].uri) <==> AllNodes(t)[i].uri == node
    {
      StripSlashesIs(uri, AllNodes(t)[i].uri);
    }
    hide Names; hide StripSlashes; hide Lookup;
  }

  lemma {:induction false} LastOf(nodes: seq<MoNode>, uri: string) returns (i: nat)
    requires Lookup(nodes, uri).Some?
    ensures i < |nodes| && nodes[i].uri == uri && forall j :: i < j < |nodes| ==> nodes[j].uri != uri
  {
    i := |nodes| - 1;
    if nodes[i].uri != uri { i := LastOf(nodes[..i], uri); }
  }

  /** Which node it is. */
  lemma WhichNode(t: MoTree, uri: string) returns (i: nat)
    requires Node(t, uri).Some?
    ensures NamesAt(t, uri, i) && Node(t, uri) == Some(AllNodes(t)[i])
  {
    i := LastOf(AllNodes(t), StripSlashes(uri));
    StripSlashesIs(uri, AllNodes(t)[i].uri);
    NodeIsNamed(t, uri);
  }

  /** The nodes of a tree are those of its objects, one object after the other. */
  lemma {:induction false} NodesInOrder(a: seq<seq<MoNode>>, b: seq<seq<MoNode>>)
    ensures AllNodes(MoTree(a + b)) == AllNodes(MoTree(a)) + AllNodes(MoTree(b))
    ensures |a| == 1 ==> AllNodes(MoTree(a)) == a[0]
    ensures AllNodes(MoTree([])) == []
    decreases |a|
  {
    if a == [] {
      assert a + b == b;
    } else {
      NodesInOrder(a[1..], b);
      assert (a + b)[1..] == a[1..] + b;
      assert AllNodes(MoTree(a)) == a[0] + AllNodes(MoTree(a[1..]));
    }
  }

  function DeviceUris(nodes: seq<MoNode>): seq<string> {
    if nodes == [] then []
    else (if nodes[0].source == Device && !nodes[0].IsInterior() then [nodes[0].uri] else []) + DeviceUris(nodes[1..])
  }

  /** device_query_uris with no limit: what the inventory asks for. */
  function DeviceQueryUris(t: MoTree): seq<string> {
    DeviceUris(AllNodes(t))
  }

  predicate Declared(t: MoTree, uri: string) {
    exists i :: 0 <= i < |AllNodes(t)| && AllNodes(t)[i].uri == uri && AllNodes(t)[i].IsInterior()
  }

  // ---- addresses ----

  function Slashes(s: string): nat {
    if s == "" then 0 else (if s[0] == '/' then 1 else 0) + Slashes(s[1..])
  }

  lemma {:induction false} SlashesConcat(a: string, b: string)
    ensures Slashes(a + b) == Slashes(a) + Slashes(b)
  {
    if a == "" {
      assert a + b == b;
    } else {
      assert (a + b)[1..] == a[1..] + b;
      SlashesConcat(a[1..], b);
    }
  }

  function FirstSlash(s: string): (k: nat)
    ensures k <= |s| && '/' !in s[..k] && (k < |s| ==> s[k] == '/')
  {
    if s == "" || s[0] == '/' then 0
    else
      var k := FirstSlash(s[1..]);
      assert s[..k + 1] == [s[0]] + s[1..][..k];
      k + 1
  }

  lemma {:induction false} FirstSlashIsFirst(s: string, i: nat)
    requires i < |s| && s[i] == '/'
    ensures FirstSlash(s) <= i
  {
    if i > 0 { FirstSlashIsFirst(s[1..], i - 1); }
  }

  /** str.split("/") */
  function Split(s: string): (parts: seq<string>)
    ensures parts != []
    decreases |s|
  {
    var k := FirstSlash(s);
    if k == |s| then [s] else [s[..k]] + Split(s[k + 1..])
  }

  /** "/".join */
  function Join(parts: seq<string>): string {
    if parts == [] then "" else if |parts| == 1 then parts[0] else parts[0] + "/" + Join(parts[1..])
  }

  /** u is the address w up to one of its slashes. */
  predicate Cut(u: string, w: string) {
    |u| < |w| && w[..|u|] == u && w[|u|] == '/'
  }

  /** u is an interior address above w: a cut of it that itself has a slash. */
  predicate Ancestor(u: string, w: string) {
    Cut(u, w) && Slashes(u) > 0
  }

  lemma {:induction false} NoSlashes(s: string)
    requires '/' !in s
    ensures Slashes(s) == 0
  {
    if s != "" { NoSlashes(s[1..]); }
  }

  /** Joining the first d parts is cutting at the d-th slash. */
  lemma {:induction false} JoinIsCut(s: string, d: nat)
    requires 1 <= d < |Split(s)|
    ensures Cut(Join(Split(s)[..d]), s) && Slashes(Join(Split(s)[..d])) == d - 1
    decreases |s|
  {
    var k := FirstSlash(s);
    var parts := Split(s);
    NoSlashes(s[..k]);
    if d == 1 {
      assert parts[..1] == [s[..k]];
    } else {
      JoinIsCut(s[k + 1..], d - 1);
      var u := Join(parts[1..][..d - 1]);
      assert parts[..d][1..] == parts[1..][..d - 1] && parts[1..] == Split(s[k + 1..]);
      assert Join(parts[..d]) == s[..k] + "/" + u;
      hide Slashes;
      hide Join;
      SlashesBelow(s[..k], u);
      CutBelow(s, k, u);
    }
  }

  lemma SlashesBelow(a: string, u: string)
    ensures Slashes(a + "/" + u) == Slashes(a) + 1 + Slashes(u)
  {
    SlashesConcat(a, "/" + u);
    assert ("/" + u)[1..] == u;
    assert a + "/" + u == a + ("/" + u);
  }

  lemma CutBelow(s: string, k: nat, u: string)
    requires k < |s| && s[k] == '/' && Cut(u, s[k + 1..])
    ensures Cut(s[..k] + "/" + u, s)
  {
    var v := s[..k] + "/" + u;
    assert s[..|v|] == s[..k] + "/" + s[k + 1..][..|u|];
  }

  /** Every cut is such a join. */
  lemma {:induction false} CutIsJoin(u: string, s: string)
    requires Cut(u, s)
    ensures 1 <= Slashes(u) + 1 < |Split(s)| && u == Join(Split(s)[..Slashes(u) + 1])
    decreases |s|
  {
    var k := FirstSlash(s);
    FirstSlashIsFirst(s, |u|);
    NoSlashes(s[..k]);
    SplitAt(s, k);
    hide Split;
    hide FirstSlash;
    var sub := Split(s[k + 1..]);
    if |u| == k {
      assert Split(s)[..1] == [s[..k]];
    } else {
      CutAbove(u, s, k);
      var v := u[k + 1..];
      CutIsJoin(v, s[k + 1..]);
      SlashesBelow(s[..k], v);
      hide Slashes;
      var d := Slashes(v) + 1;
      assert Split(s)[..d + 1] == [s[..k]] + sub[..d];
      JoinCons(s[..k], sub[..d]);
    }
  }

  lemma SplitAt(s: string, k: nat)
    requires k == FirstSlash(s) && k < |s|
    ensures Split(s) == [s[..k]] + Split(s[k + 1..])
  {
  }

  lemma JoinCons(x: string, ys: seq<string>)
    requires ys != []
    ensures Join([x] + ys) == x + "/" + Join(ys)
  {
    assert ([x] + ys)[1..] == ys;
  }

  lemma CutAbove(u: string, s: string, k: nat)
    requires Cut(u, s) && k < |u| && s[k] == '/'
    ensures u == s[..k] + "/" + u[k + 1..] && Cut(u[k + 1..], s[k + 1..])
  {
    var v := u[k + 1..];
    assert u[k] == s[..|u|][k];
    assert s[k + 1..][..|v|] == s[..|u|][k + 1..];
    assert u[..k] == s[..|u|][..k];
  }

  // ---- the order of the additions: by depth, then by name ----

  predicate LexLess(a: string, b: string) {
    b != "" && (a == "" || a[0] < b[0] || (a[0] == b[0] && LexLess(a[1..], b[1..])))
  }

  predicate Less(a: string, b: string) {
    Slashes(a) < Slashes(b) || (Slashes(a) == Slashes(b) && LexLess(a, b))
  }

  lemma {:induction false} LexTotal(a: string, b: string)
    ensures LexLess(a, b) || a == b || LexLess(b, a)
    ensures !(LexLess(a, b) && LexLess(b, a)) && !LexLess(a, a)
  {
    if a != "" && b != "" {
      LexTotal(a[1..], b[1..]);
      assert a == [a[0]] + a[1..] && b == [b[0]] + b[1..];
    }
    if a != "" { LexTotal(a[1..], a[1..]); }
  }

  lemma {:induction false} LexTransitive(a: string, b: string, c: string)
    requires LexLess(a, b) && LexLess(b, c)
    ensures LexLess(a, c)
  {
    if a != "" && a[0] == b[0] == c[0] { LexTransitive(a[1..], b[1..], c[1..]); }
  }

  lemma LessTotal(a: string, b: string)
    ensures Less(a, b) || a == b || Less(b, a)
    ensures !(Less(a, b) && Less(b, a)) && !Less(a, a)
  {
    LexTotal(a, b);
    LexTotal(a, a);
  }

  lemma LessTransitive(a: string, b: string, c: string)
    requires Less(a, b) && Less(b, c)
    ensures Less(a, c)
  {
    if Slashes(a) == Slashes(b) == Slashes(c) { LexTransitive(a, b, c); }
  }

  /** The order of the characters at the first place where two names differ. */
  lemma {:induction false} LexLessIs(a: string, b: string)
    ensures LexLess(a, b) <==>
              exists k :: 0 <= k <= |a| && k < |b| && a[..k] == b[..k] && (k == |a| || a[k] < b[k])
  {
    if a != "" && b != "" && a[0] == b[0] {
      LexLessIs(a[1..], b[1..]);
      var (c, d) := (a[1..], b[1..]);
      if k :| 0 <= k <= |c| && k < |d| && c[..k] == d[..k] && (k == |c| || c[k] < d[k]) {
        assert a[..k + 1] == [a[0]] + c[..k] && b[..k + 1] == [b[0]] + d[..k];
      }
      if k :| 0 <= k <= |a| && k < |b| && a[..k] == b[..k] && (k == |a| || a[k] < b[k]) {
        assert k > 0;
        assert a[1..][..k - 1] == a[..k][1..] && b[1..][..k - 1] == b[..k][1..];
      }
    } else if LexLess(a, b) {
      assert a[..0] == b[..0];
    } else {
      forall k | 0 < k <= |a| && k < |b| && a[..k] == b[..k]
        ensures a[0] == b[0]
      {
        SameFirst(a, b, k);
      }
    }
  }

  lemma SameFirst(a: string, b: string, k: nat)
    requires 0 < k <= |a| && k <= |b| && a[..k] == b[..k]
    ensures a[0] == b[0]
  {
    assert a[0] == a[..k][0] == b[..k][0];
  }

  lemma {:induction false} SlashesAreCounted(s: string)
    ensures Slashes(s) == multiset(s)['/']
  {
    if s != "" {
      SlashesAreCounted(s[1..]);
      assert s == [s[0]] + s[1..];
    }
  }

  ghost predicate Ordered(us: seq<string>) {
    forall i, j :: 0 <= i < j < |us| ==> Less(us[i], us[j])
  }

  /** sorted() one element at a time; an element already there is not added again. */
  function Insert(us: seq<string>, u: string): (r: seq<string>)
    ensures forall x :: x in r <==> x in us || x == u
  {
    if us == [] then [u]
    else if us[0] == u then us
    else if Less(u, us[0]) then [u] + us
    else
      assert us == [us[0]] + us[1..];
      [us[0]] + Insert(us[1..], u)
  }

  lemma {:induction false} InsertOrdered(us: seq<string>, u: string)
    requires Ordered(us)
    ensures Ordered(Insert(us, u))
  {
    if us != [] {
      LessTotal(u, us[0]);
      var r := Insert(us, u);
      if us[0] == u {
      } else if Less(u, us[0]) {
        forall j | 0 < j < |r|
          ensures Less(u, r[j])
        {
          if j > 1 { LessTransitive(u, us[0], us[j - 1]); }
        }
      } else {
        InsertOrdered(us[1..], u);
        forall j | 0 < j < |r|
          ensures Less(us[0], r[j])
        {
          assert r[j] in Insert(us[1..], u);
        }
      }
    }
  }

  lemma HasElement(s: seq<string>)
    requires s != []
    ensures exists x :: x in s
  {
    assert s[0] in s;
  }

  lemma DeeperIsLater(us: seq<string>, i: nat, j: nat)
    requires Ordered(us) && i < |us| && j < |us| && Slashes(us[i]) < Slashes(us[j])
    ensures i < j
  {
  }

  /** An ordered list is determined by its elements, so sorting has one result. */
  lemma {:induction false} OrderedUnique(a: seq<string>, b: seq<string>)
    requires Ordered(a) && Ordered(b) && forall x :: x in a <==> x in b
    ensures a == b
  {
    if a == [] {
      if b != [] { HasElement(b); }
    } else {
      assert a[0] in b;
      assert b[0] in a;
      LessTotal(a[0], b[0]);
      var a', b' := a[1..], b[1..];
      forall x
        ensures x in a' <==> x in b'
      {
        if x in a' { LessTotal(a[0], x); assert x in b; }
        if x in b' { LessTotal(b[0], x); assert x in a; }
      }
      OrderedUnique(a', b');
      assert a == [a[0]] + a' && b == [b[0]] + b';
    }
  }

  // ---- the interior nodes of a push ----

  /** The declared interior addresses among the cuts of one address, from part `depth` on. */
  function AddCuts(t: MoTree, parts: seq<string>, depth: nat, us: seq<string>): seq<string>
    decreases |parts| - depth
  {
    if depth >= |parts| then us
    else
      var u := Join(parts[..depth]);
      AddCuts(t, parts, depth + 1, if Declared(t, u) then Insert(us, u) else us)
  }

  function AddAll(t: MoTree, uris: seq<string>, us: seq<string>): seq<string> {
    if uris == [] then us else AddAll(t, uris[1..], AddCuts(t, Split(uris[0]), 2, us))
  }

  /** _interior_nodes_for: what must exist before the leaves at these addresses can be written. */
  function InteriorNodesFor(t: MoTree, uris: seq<string>): seq<string> {
    AddAll(t, uris, [])
  }

  /** An interior node of the tree above one of the leaves. */
  ghost predicate Needed(t: MoTree, uris: seq<string>, u: string) {
    && (exists k :: 0 <= k < |AllNodes(t)| && AllNodes(t)[k].uri == u && AllNodes(t)[k].format == "node")
    && (exists i :: 0 <= i < |uris| && Ancestor(u, uris[i]))
  }

  /** u is a cut of w at part `depth` or deeper. */
  predicate CutFrom(u: string, w: string, depth: nat) {
    Cut(u, w) && Slashes(u) + 1 >= depth
  }

  lemma {:induction false} AddCutsAdds(t: MoTree, w: string, depth: nat, us: seq<string>)
    requires Ordered(us) && depth >= 1
    ensures var r := AddCuts(t, Split(w), depth, us);
            Ordered(r) && forall u :: u in r <==> u in us || (Declared(t, u) && CutFrom(u, w, depth))
    decreases |Split(w)| - depth
  {
    var parts := Split(w);
    if depth < |parts| {
      var c := Join(parts[..depth]);
      JoinIsCut(w, depth);
      var us' := if Declared(t, c) then Insert(us, c) else us;
      InsertOrdered(us, c);
      AddCutsAdds(t, w, depth + 1, us');
      forall u
        ensures CutFrom(u, w, depth) <==> u == c || CutFrom(u, w, depth + 1)
      {
        if Cut(u, w) { CutIsJoin(u, w); }
      }
    } else {
      forall u
        ensures !CutFrom(u, w, depth)
      {
        if Cut(u, w) { CutIsJoin(u, w); }
      }
    }
  }

  lemma {:induction false} AddAllAdds(t: MoTree, uris: seq<string>, us: seq<string>)
    requires Ordered(us)
    ensures var r := AddAll(t, uris, us);
            Ordered(r) && forall u :: u in r <==> u in us || Needed(t, uris, u)
  {
    if uris != [] {
      AddCutsAdds(t, uris[0], 2, us);
      AddAllAdds(t, uris[1..], AddCuts(t, Split(uris[0]), 2, us));
      forall u
        ensures Needed(t, uris, u) <==> (Declared(t, u) && CutFrom(u, uris[0], 2)) || Needed(t, uris[1..], u)
      {
        NeededFirst(t, uris, u);
      }
    }
  }

  lemma NeededFirst(t: MoTree, uris: seq<string>, u: string)
    requires uris != []
    ensures Needed(t, uris, u) <==> (Declared(t, u) && CutFrom(u, uris[0], 2)) || Needed(t, uris[1..], u)
  {
    if Needed(t, uris, u) {
      var i :| 0 <= i < |uris| && Ancestor(u, uris[i]);
      if i > 0 { assert uris[1..][i - 1] == uris[i]; }
    }
    if Needed(t, uris[1..], u) {
      var i :| 0 <= i < |uris[1..]| && Ancestor(u, uris[1..][i]);
      assert uris[i + 1] == uris[1..][i];
    }
    if Declared(t, u) && CutFrom(u, uris[0], 2) { assert Ancestor(u, uris[0]); }
  }

  /**
   The nodes added are exactly the declared interior nodes above some pushed leaf, each once, in
   strictly increasing order of depth and name.
   */
  lemma InteriorNodesAreNeeded(t: MoTree, uris: seq<string>)
    ensures Ordered(InteriorNodesFor(t, uris))
    ensures forall u :: u in InteriorNodesFor(t, uris) <==> Needed(t, uris, u)
  {
    AddAllAdds(t, uris, []);
  }

  lemma AncestorOfAncestor(a: string, u: string, w: string)
    requires Ancestor(a, u) && Ancestor(u, w)
    ensures Ancestor(a, w)
  {
    assert w[..|a|] == w[..|u|][..|a|];
    assert w[|a|] == w[..|u|][|a|];
  }

  lemma AncestorIsShallower(a: string, u: string)
    requires Cut(a, u)
    ensures Slashes(a) < Slashes(u)
  {
    assert u == a + u[|a|..];
    SlashesConcat(a, u[|a|..]);
  }

  /** Parents before children: a node's own declared ancestors all stand before it. */
  lemma ParentsFirst(t: MoTree, uris: seq<string>, j: nat, a: string)
    requires j < |InteriorNodesFor(t, uris)|
    requires Declared(t, a) && Ancestor(a, InteriorNodesFor(t, uris)[j])
    ensures exists i :: 0 <= i < j && InteriorNodesFor(t, uris)[i] == a
  {
    var us := InteriorNodesFor(t, uris);
    InteriorNodesAreNeeded(t, uris);
    assert us[j] in us;
    var k :| 0 <= k < |uris| && Ancestor(us[j], uris[k]);
    AncestorOfAncestor(a, us[j], uris[k]);
    assert Needed(t, uris, a);
    var i :| 0 <= i < |us| && us[i] == a;
    AncestorIsShallower(a, us[j]);
    DeeperIsLater(us, i, j);
  }

  /** _interior_nodes_for with the source's two sets and its sort. */
  method InteriorNodes(t: MoTree, uris: seq<string>) returns (r: seq<string>)
    ensures r == InteriorNodesFor(t, uris)
  {
    var needed: set<string> := {};
    for i := 0 to |uris|
      invariant forall u :: u in needed <==> exists k :: 0 <= k < i && Ancestor(u, uris[k])
    {
      var cuts := CutsOf(uris[i]);
      needed := needed + cuts;
    }
    var declared := set n | n in AllNodes(t) && n.IsInterior() :: n.uri;
    r := SortUris(needed * declared);
    InteriorNodesAreNeeded(t, uris);
    forall u
      ensures u in needed * declared <==> Needed(t, uris, u)
    {
      assert u in declared <==> Declared(t, u) by { DeclaredIn(t, u); }
    }
    OrderedUnique(r, InteriorNodesFor(t, uris));
  }

  lemma DeclaredIn(t: MoTree, u: string)
    ensures u in (set n | n in AllNodes(t) && n.IsInterior() :: n.uri) <==> Declared(t, u)
  {
    if Declared(t, u) {
      var i :| 0 <= i < |AllNodes(t)| && AllNodes(t)[i].uri == u && AllNodes(t)[i].IsInterior();
      assert AllNodes(t)[i] in AllNodes(t);
    }
  }

  method CutsOf(uri: string) returns (cuts: set<string>)
    ensures forall u :: u in cuts <==> Ancestor(u, uri)
  {
    var parts := Split(uri);
    cuts := {};
    var depth := 2;
    while depth < |parts|
      invariant 2 <= depth
      invariant forall u :: u in cuts <==> Ancestor(u, uri) && Slashes(u) + 1 < depth
    {
      JoinIsCut(uri, depth);
      var c := Join(parts[..depth]);
      forall u | Ancestor(u, uri) && Slashes(u) + 1 == depth
        ensures u == c
      {
        CutIsJoin(u, uri);
      }
      cuts := cuts + {c};
      depth := depth + 1;
    }
    forall u | Ancestor(u, uri)
      ensures Slashes(u) + 1 < depth
    {
      CutIsJoin(u, uri);
    }
  }

  /** sorted(): whatever order the set gives its elements in. */
  method SortUris(us: set<string>) returns (r: seq<string>)
    ensures Ordered(r) && forall u :: u in r <==> u in us
  {
    var rest := us;
    r := [];
    while rest != {}
      invariant Ordered(r) && rest <= us
      invariant forall u :: u in r <==> u in us - rest
      decreases |rest|
    {
      var u :| u in rest;
      InsertOrdered(r, u);
      r := Insert(r, u);
      rest := rest - {u};
    }
  }
}
