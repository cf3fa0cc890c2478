/**
 Provider ids, the index over them and the lookup of a machine's node
 (controllers/noderefutil/providerid.go, controllers/noderefutil/indexer.go, controllers/machine_controller_noderef.go).
 */
module ProviderId {
  import opened Basics

  /** The part after the last occurrence of c, or all of s. */
  function AfterLast(s: string, c: char): (r: string)
    ensures |r| <= |s| && r == s[|s| - |r|..] && c !in r
    ensures |r| < |s| ==> s[|s| - |r| - 1] == c
  {
    if s == [] || s[|s| - 1] == c then []
    else AfterLast(s[..|s| - 1], c) + [s[|s| - 1]]
  }

  /** The pattern of a provider id: no colon, "://", anything on one line, and a last character that is no slash. */
  predicate Pattern(s: string) {
    var k := IndexOf(s, ':');
    && 0 < k && k + 3 < |s| && s[k + 1] == '/' && s[k + 2] == '/'
    && s[|s| - 1] != '/' && '\n' !in s[k + 3..|s| - 1]
  }

  /** The regular expression `^[^:]+://.*[^/]$`, with the colon at k. */
  predicate MatchesAt(s: string, k: nat) {
    && 0 < k && k + 3 < |s| && ':' !in s[..k] && s[k] == ':' && s[k + 1] == '/' && s[k + 2] == '/'
    && '\n' !in s[k + 3..|s| - 1] && s[|s| - 1] != '/'
  }

  lemma PatternIsRegex(s: string)
    ensures Pattern(s) <==> exists k: nat :: MatchesAt(s, k)
  {
    var k := IndexOf(s, ':');
    if Pattern(s) {
      assert MatchesAt(s, k);
    }
    if j: nat :| MatchesAt(s, j) {
      assert forall i | 0 <= i < j :: s[i] == s[..j][i];
      assert k == j;
    }
  }

  datatype Id = Id(original: string, provider: string, id: string)

  predicate Validate(p: Id) { p.provider != "" && p.id != "" }

  /** NewProviderID. */
  function Parse(s: string): Option<Id> {
    if s == "" || !Pattern(s) then None
    else
      var p := Id(s, s[..IndexOf(s, ':')], AfterLast(s, '/'));
      if Validate(p) then Some(p) else None
  }

  predicate Equals(p: Id, q: Id) { p.provider == q.provider && p.id == q.id }

  function IndexKey(p: Id): string { p.provider + "/" + p.id }

  /** Validation never rejects what the pattern admits, and the id part has no slash. */
  lemma ParseMatches(s: string)
    ensures Parse(s).Some? <==> Pattern(s)
    ensures Parse(s).Some? ==> '/' !in Parse(s).value.id && Parse(s).value.id != "" && ':' !in Parse(s).value.provider
  {
    if Pattern(s) {
      assert AfterLast(s, '/') != [];
    }
  }

  /** A path between the provider and the id: empty, or ending in a slash, and on one line. */
  predicate IsPath(path: string) { '\n' !in path && (path == "" || path[|path| - 1] == '/') }

  function Built(provider: string, path: string, id: string): string { provider + "://" + path + id }

  lemma BuiltFront(provider: string, path: string, id: string)
    requires ':' !in provider && id != ""
    ensures var s, k := Built(provider, path, id), |provider|;
      && IndexOf(s, ':') == k && k + 3 < |s| && s[..k] == provider && s[k + 1] == s[k + 2] == '/'
      && s[k + 3..|s| - 1] == path + id[..|id| - 1] && s[|s| - 1] == id[|id| - 1]
  {
    var s, k := Built(provider, path, id), IndexOf(Built(provider, path, id), ':');
    hide IndexOf;
    var mark, rest := "://", path + id;
    assert mark[0] == ':' && mark[1] == mark[2] == '/';
    assert s == provider + mark + rest;
    assert s[|provider|] == ':' && forall i | 0 <= i < |provider| :: s[i] == provider[i];
    assert k == |provider| && s[k + 1] == mark[1] && s[k + 2] == mark[2];
    assert s[k + 3..] == rest && s[k + 3..|s| - 1] == rest[..|rest| - 1] == path + id[..|id| - 1];
  }

  lemma BuiltBack(provider: string, path: string, id: string)
    requires IsPath(path) && '/' !in id
    ensures AfterLast(Built(provider, path, id), '/') == id
  {
    hide AfterLast;
    var front := if path == "" then provider + ":/" else provider + "://" + path[..|path| - 1];
    assert Built(provider, path, id) == front + "/" + id;
    LastPart(front, id);
  }

  /** An id is read back from what it was put together from: provider, an optional path, and the id. */
  lemma ParseBuilt(provider: string, path: string, id: string)
    requires provider != "" && ':' !in provider && IsPath(path) && id != "" && '/' !in id && '\n' !in id
    ensures var s := Built(provider, path, id); Parse(s) == Some(Id(s, provider, id))
  {
    hide Built, IndexOf, AfterLast;
    BuiltFront(provider, path, id);
    BuiltBack(provider, path, id);
  }

  lemma LastSlashBefore(s: string, i: nat, start: nat)
    requires i < |s| && s[i] == '/' && start <= |s| && '/' !in s[start..]
    ensures i < start
  {
  }

  lemma BuiltAgain(s: string, k: nat, e: nat)
    requires k + 3 <= e <= |s| && s[k] == ':' && s[k + 1] == s[k + 2] == '/'
    ensures s == Built(s[..k], s[k + 3..e], s[e..])
  {
    assert s[k..k + 3] == "://";
    assert s == s[..k] + s[k..k + 3] + s[k + 3..e] + s[e..];
  }

  lemma OneLine(s: string, k: nat, e: nat)
    requires k <= e < |s| && '\n' !in s[k..|s| - 1]
    ensures '\n' !in s[k..e]
  {
    assert forall i | 0 <= i < e - k :: s[k..e][i] == s[k..|s| - 1][i];
  }

  /** And everything that is read at all has been put together like that. */
  lemma ParseParts(s: string)
    requires Parse(s).Some?
    ensures var p := Parse(s).value;
      && p.original == s && |p.provider| + 3 <= |s| - |p.id|
      && var path := s[|p.provider| + 3..|s| - |p.id|];
         s == Built(p.provider, path, p.id) && IsPath(path)
  {
    ParseMatches(s);
    var p, k, e := Parse(s).value, IndexOf(s, ':'), |s| - |Parse(s).value.id|;
    assert p.provider == s[..k] && p.original == s && k + 3 < |s|;
    assert p.id == s[e..] && (0 < e ==> s[e - 1] == '/');
    assert s[k] == ':' && s[k + 1] == s[k + 2] == '/' && '\n' !in s[k + 3..|s| - 1];
    hide Parse, IndexOf, AfterLast, Pattern, Built;
    LastSlashBefore(s, k + 2, e);
    BuiltAgain(s, k, e);
    OneLine(s, k + 3, e);
  }

  /** Keys are equal exactly for equal ids: the last slash of a key is where the provider ends. */
  lemma KeyIsFaithful(s: string, t: string)
    requires Parse(s).Some? && Parse(t).Some?
    ensures var p, q := Parse(s).value, Parse(t).value;
      IndexKey(p) == IndexKey(q) <==> p.provider == q.provider && p.id == q.id
  {
    ParseMatches(s);
    ParseMatches(t);
    var p, q := Parse(s).value, Parse(t).value;
    if IndexKey(p) == IndexKey(q) {
      LastSlash(p.provider, p.id, q.provider, q.id);
    }
  }

  lemma {:induction false} LastPart(a: string, x: string)
    requires '/' !in x
    ensures AfterLast(a + "/" + x, '/') == x
  {
    var u := a + "/" + x;
    if x != "" {
      LastPart(a, x[..|x| - 1]);
      assert u[..|u| - 1] == a + "/" + x[..|x| - 1];
    }
  }

  lemma LastSlash(a: string, x: string, b: string, y: string)
    requires '/' !in x && '/' !in y && a + "/" + x == b + "/" + y
    ensures a == b && x == y
  {
    LastPart(a, x);
    LastPart(b, y);
    assert (a + "/" + x)[..|a|] == a && (b + "/" + y)[..|b|] == b;
  }

  // ---------------------------------------------------------------- finding a node

  datatype Node = Node(name: string, providerID: string)

  /** IndexNodeByProviderID: the keys under which a node is filed. */
  function IndexNode(n: Node): seq<string> {
    if n.providerID == "" then []
    else match Parse(n.providerID)
      case None => []
      case Some(p) => [IndexKey(p)]
  }

  /** Listing with the index: the nodes filed under a key. */
  function ByIndex(nodes: seq<Node>, key: string): seq<Node> {
    if nodes == [] then []
    else (if key in IndexNode(nodes[0]) then [nodes[0]] else []) + ByIndex(nodes[1..], key)
  }

  /** The test the scan applies to a node. */
  predicate Matching(p: Id, n: Node) {
    Parse(n.providerID).Some? && Equals(p, Parse(n.providerID).value)
  }

  function AllMatching(nodes: seq<Node>, p: Id): seq<Node> {
    if nodes == [] then []
    else (if Matching(p, nodes[0]) then [nodes[0]] else []) + AllMatching(nodes[1..], p)
  }

  lemma FiledExactly(n: Node, s: string)
    requires Parse(s).Some?
    ensures IndexKey(Parse(s).value) in IndexNode(n) <==> Matching(Parse(s).value, n)
  {
    assert Parse("") == None;
    hide Parse, IndexKey;
    if Parse(n.providerID).Some? { KeyIsFaithful(s, n.providerID); }
  }

  /**
   The index refines the scan: for every node list it returns exactly the nodes that the scan would match, in
   order.
   */
  lemma {:induction false} IndexRefinesScan(nodes: seq<Node>, s: string)
    requires Parse(s).Some?
    ensures ByIndex(nodes, IndexKey(Parse(s).value)) == AllMatching(nodes, Parse(s).value)
  {
    hide Parse, IndexKey, IndexNode, Matching;
    if nodes != [] {
      FiledExactly(nodes[0], s);
      IndexRefinesScan(nodes[1..], s);
    }
  }

  datatype Lookup = Found(node: Node) | NotFound | Ambiguous | Failed

  /** What one listing returns. */
  datatype Page = Nodes(nodes: seq<Node>) | ListFailed

  /** The first match of the scan. */
  function Scan(nodes: seq<Node>, p: Id): Lookup {
    var m := AllMatching(nodes, p);
    if m == [] then NotFound else Found(m[0])
  }

  /** The nodes on the pages before the first listing that fails. */
  function Flatten(pages: seq<Page>): seq<Node> {
    if pages == [] || pages[0].ListFailed? then [] else pages[0].nodes + Flatten(pages[1..])
  }

  predicate Broken(pages: seq<Page>) { ListFailed in pages }

  /** The scan over pages: the first match, or else the failure that kept it from looking further. */
  function ScanOf(pages: seq<Page>, p: Id): Lookup {
    var r := Scan(Flatten(pages), p);
    if r.NotFound? && Broken(pages) then Failed else r
  }

  /** The scan finds the first node with the same provider and id, and nothing exactly if there is none. */
  lemma {:induction false} ScanExactly(nodes: seq<Node>, p: Id)
    ensures Scan(nodes, p).NotFound? <==> forall j | 0 <= j < |nodes| :: !SameId(p, nodes[j])
    ensures Scan(nodes, p).Found? ==>
      exists j | 0 <= j < |nodes| ::
        SameId(p, nodes[j]) && nodes[j] == Scan(nodes, p).node && forall i | 0 <= i < j :: !SameId(p, nodes[i])
  {
    hide Parse;
    if nodes != [] {
      ScanExactly(nodes[1..], p);
      assert forall i | 1 <= i < |nodes| :: nodes[i] == nodes[1..][i - 1];
      if !SameId(p, nodes[0]) && Scan(nodes, p).Found? {
        var rest := nodes[1..];
        var j :| 0 <= j < |rest| && SameId(p, rest[j]) && rest[j] == Scan(rest, p).node
          && forall i | 0 <= i < j :: !SameId(p, rest[i]);
        assert nodes[j + 1] == rest[j];
      }
    }
  }

  predicate SameId(p: Id, n: Node) {
    && Parse(n.providerID).Some?
    && Parse(n.providerID).value.provider == p.provider && Parse(n.providerID).value.id == p.id
  }

  /** Page after page: a failed listing ends the search, and so does a match. */
  lemma ScanByPage(pages: seq<Page>, p: Id)
    ensures ScanOf(pages, p) ==
      if pages == [] then NotFound else if pages[0].ListFailed? then Failed
      else if Scan(pages[0].nodes, p).Found? then Scan(pages[0].nodes, p) else ScanOf(pages[1..], p)
  {
    if pages != [] && pages[0].Nodes? {
      MatchingAppend(pages[0].nodes, Flatten(pages[1..]), p);
      assert Broken(pages) <==> Broken(pages[1..]) by { assert pages == [pages[0]] + pages[1..]; }
      hide AllMatching, Broken;
      assert Flatten(pages) == pages[0].nodes + Flatten(pages[1..]);
    }
  }

  lemma NoMatch(p: Id)
    ensures AllMatching([], p) == []
  {
  }

  lemma {:induction false} MatchingAppend(a: seq<Node>, b: seq<Node>, p: Id)
    ensures AllMatching(a + b, p) == AllMatching(a, p) + AllMatching(b, p)
  {
    if a == [] {
      assert a + b == b;
    } else {
      assert (a + b)[1..] == a[1..] + b;
      MatchingAppend(a[1..], b, p);
    }
  }

  /** The loop over the nodes of one page. */
  method ScanPage(page: seq<Node>, p: Id) returns (r: Lookup)
    ensures r == Scan(page, p)
  {
    hide Matching;
    var j := 0;
    while j < |page|
      invariant 0 <= j <= |page|
      invariant AllMatching(page, p) == AllMatching(page[j..], p)
    {
      assert page[j..][1..] == page[j + 1..];
      if Matching(p, page[j]) {
        return Found(page[j]);
      }
      j := j + 1;
    }
    return NotFound;
  }

  /** The fallback: page through all nodes and stop at the first match. */
  method ScanPages(pages: seq<Page>, p: Id) returns (r: Lookup)
    ensures r == ScanOf(pages, p)
  {
    hide Matching, AllMatching;
    assert AllMatching([], p) == [] by { NoMatch(p); }
    var i := 0;
    while i < |pages|
      invariant 0 <= i <= |pages| && ListFailed !in pages[..i]
      invariant AllMatching(Flatten(pages), p) == AllMatching(Flatten(pages[i..]), p)
    {
      if pages[i].ListFailed? {
        assert pages[i] in pages && Flatten(pages[i..]) == [];
        return Failed;
      }
      assert pages[i..][1..] == pages[i + 1..] && pages[..i + 1] == pages[..i] + [pages[i]];
      MatchingAppend(pages[i].nodes, Flatten(pages[i + 1..]), p);
      r := ScanPage(pages[i].nodes, p);
      if r.Found? {
        return;
      }
      i := i + 1;
    }
    assert pages[..i] == pages;
    return NotFound;
  }

  /** getNode, given what the indexed listing returned and the pages of the full one. */
  method GetNode(indexed: Page, pages: seq<Page>, p: Id) returns (r: Lookup)
    ensures indexed.ListFailed? ==> r == Failed
    ensures indexed.Nodes? ==> r == if indexed.nodes == [] then ScanOf(pages, p)
      else if |indexed.nodes| == 1 then Found(indexed.nodes[0]) else Ambiguous
    ensures !Broken(pages) && indexed == Nodes(ByIndex(Flatten(pages), IndexKey(p))) ==>
      r == Answer(Flatten(pages), p, true)
    ensures !Broken(pages) && indexed == Nodes([]) ==> r == Answer(Flatten(pages), p, false)
  {
    if indexed.ListFailed? {
      return Failed;
    }
    if |indexed.nodes| == 0 {
      r := ScanPages(pages, p);
      return;
    }
    if |indexed.nodes| != 1 {
      return Ambiguous;
    }
    r := Found(indexed.nodes[0]);
  }

  /** The answer of getNode over some nodes, with the index at hand or without it. */
  function Answer(nodes: seq<Node>, p: Id, useIndex: bool): Lookup {
    var indexed := if useIndex then ByIndex(nodes, IndexKey(p)) else [];
    if indexed == [] then Scan(nodes, p) else if |indexed| == 1 then Found(indexed[0]) else Ambiguous
  }

  /** Losing the index changes the answer exactly when more than one node matches: the scan then picks the first. */
  lemma PathsAgreeExactly(nodes: seq<Node>, s: string)
    requires Parse(s).Some?
    ensures Answer(nodes, Parse(s).value, true) == Answer(nodes, Parse(s).value, false)
      <==> |AllMatching(nodes, Parse(s).value)| <= 1
  {
    IndexRefinesScan(nodes, s);
  }
}
