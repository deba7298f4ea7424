/** The graph views of src/routes/graph.js: the ego graph around one patent
    (its applicants, inventors and IPC domain), trimmed to a node budget, and
    the two-step bridge between two patents through a shared applicant or a
    shared IPC prefix. */
module Graph {
  import opened Js
  import opened Text
  import opened Seqs
  import Paging

  /** The class `[;,，；、\s]` (no `|`, unlike the inventor graph). */
  const GraphDelims: set<char> := {';', ',', '，', '；', '、'} + Spaces

  /** `splitToArray(text, limit)`: nothing for a falsy value, else the
      non-empty pieces between delimiter runs, at most `limit` of them. */
  function SplitToArray(text: Value, limit: int): (r: seq<string>)
    ensures !Truthy(text) ==> r == []
    ensures Truthy(text) ==> r == Limit(Tokens(ToStr(text), GraphDelims), limit)
    ensures limit > 0 ==> |r| <= limit
    ensures forall i :: 0 <= i < |r| ==> r[i] != "" && NoneIn(r[i], GraphDelims)
  {
    if !Truthy(text) then []
    else
      SplitTrimFilterIsTokens(ToStr(text), GraphDelims);
      Limit(SplitTrimFilter(ToStr(text), GraphDelims), limit)
  }

  /** The columns of a `patents` row the views read. */
  datatype Patent = Patent(pubNo: Value, title: Value, applicants: Value, inventors: Value, ipcPrefix: Value)

  /** `{ id, label, type }`. */
  datatype Node = Node(id: string, caption: Value, kind: string)

  /** `{ source, target, rel }`. */
  datatype Edge = Edge(source: string, target: string, rel: string)

  datatype View = View(nodes: seq<Node>, edges: seq<Edge>)

  function CenterId(p: Patent): string {
    "patent:" + ToStr(p.pubNo)
  }

  /** `{ id: centerId, label: p.title || p.pub_no, type: 'patent' }`. */
  function CenterNode(p: Patent): Node {
    Node(CenterId(p), OrElse(p.title, p.pubNo), "patent")
  }

  // ---------------------------------------------------------------------------
  // GET /api/graph/neighbor

  /** The nodes `prefix + x` labelled `x` of type `kind`, one per name. */
  function NamedNodes(names: seq<string>, prefix: string, kind: string): (r: seq<Node>)
    ensures |r| == |names|
    ensures forall i :: 0 <= i < |r| ==> r[i] == Node(prefix + names[i], Str(names[i]), kind)
  {
    if names == [] then []
    else NamedNodes(names[..|names| - 1], prefix, kind) + [Node(prefix + names[|names| - 1], Str(names[|names| - 1]), kind)]
  }

  /** The domain node when the patent has an IPC prefix. */
  function DomainNodes(ipc: Value): seq<Node> {
    if Truthy(ipc) then [Node("ipc:" + ToStr(ipc), ipc, "domain")] else []
  }

  /** The relation of a spoke, by its type. */
  function RelOf(kind: string): string {
    if kind == "organization" then "APPLIED_BY"
    else if kind == "inventor" then "INVENTED_BY"
    else "BELONGS_TO"
  }

  /** One edge from `center` to each spoke. */
  function SpokeEdges(center: string, spokes: seq<Node>): (r: seq<Edge>)
    ensures |r| == |spokes|
    ensures forall i :: 0 <= i < |r| ==> r[i] == Edge(center, spokes[i].id, RelOf(spokes[i].kind))
  {
    if spokes == [] then []
    else
      var n := spokes[|spokes| - 1];
      SpokeEdges(center, spokes[..|spokes| - 1]) + [Edge(center, n.id, RelOf(n.kind))]
  }

  /** The spokes in push order: applicants, inventors, domain. */
  function Spokes(orgs: seq<string>, invs: seq<string>, domain: seq<Node>): seq<Node> {
    NamedNodes(orgs, "org:", "organization") + NamedNodes(invs, "inv:", "inventor") + domain
  }

  /** The untrimmed ego graph: the centre, then the spokes, each joined to
      the centre. */
  function Ego(center: Node, spokes: seq<Node>): View {
    View([center] + spokes, SpokeEdges(center.id, spokes))
  }

  /** The ego graph of a patent. */
  function EgoOf(p: Patent): (g: View)
    ensures |g.nodes| >= 1 && g.nodes[0] == CenterNode(p)
    ensures |g.edges| == |g.nodes| - 1
    ensures forall i :: 0 <= i < |g.edges| ==>
              g.edges[i] == Edge(CenterId(p), g.nodes[i + 1].id, RelOf(g.nodes[i + 1].kind))
  {
    var spokes := Spokes(SplitToArray(p.applicants, 5), SplitToArray(p.inventors, 5), DomainNodes(p.ipcPrefix));
    EgoEdges(CenterNode(p), spokes);
    Ego(CenterNode(p), spokes)
  }

  /** The ego graph's nodes are the centre and then the applicants, the
      inventors and at most one domain, in that order. */
  lemma EgoShape(center: Node, orgs: seq<string>, invs: seq<string>, ipc: Value)
    ensures var g := Ego(center, Spokes(orgs, invs, DomainNodes(ipc)));
            && |g.nodes| == 1 + |orgs| + |invs| + |DomainNodes(ipc)| && |DomainNodes(ipc)| <= 1
            && g.nodes[0] == center
            && (forall i :: 0 <= i < |orgs| ==> g.nodes[1 + i] == Node("org:" + orgs[i], Str(orgs[i]), "organization"))
            && (forall i :: 0 <= i < |invs| ==> g.nodes[1 + |orgs| + i] == Node("inv:" + invs[i], Str(invs[i]), "inventor"))
            && (Truthy(ipc) ==> g.nodes[|g.nodes| - 1] == Node("ipc:" + ToStr(ipc), ipc, "domain"))
  {
    var s := Spokes(orgs, invs, DomainNodes(ipc));
    var g := Ego(center, s);
    assert g.nodes == [center] + s;
    forall i | 0 <= i < |orgs|
      ensures g.nodes[1 + i] == Node("org:" + orgs[i], Str(orgs[i]), "organization")
    {
      assert g.nodes[1 + i] == s[i];
    }
    forall i | 0 <= i < |invs|
      ensures g.nodes[1 + |orgs| + i] == Node("inv:" + invs[i], Str(invs[i]), "inventor")
    {
      assert g.nodes[1 + |orgs| + i] == s[|orgs| + i];
    }
  }

  /** Every node after the centre has exactly one edge, from the centre,
      labelled by the node's type, in node order. */
  lemma EgoEdges(center: Node, spokes: seq<Node>)
    ensures var g := Ego(center, spokes);
            && |g.edges| == |g.nodes| - 1
            && (forall i :: 0 <= i < |g.edges| ==>
                  g.edges[i] == Edge(center.id, g.nodes[i + 1].id, RelOf(g.nodes[i + 1].kind)))
  {
    var g := Ego(center, spokes);
    forall i | 0 <= i < |g.edges|
      ensures g.edges[i] == Edge(center.id, g.nodes[i + 1].id, RelOf(g.nodes[i + 1].kind))
    {
      assert g.nodes[i + 1] == spokes[i];
    }
  }

  /** Every spoke's id has `:` as its fourth character (`org:`, `inv:`,
      `ipc:`). */
  lemma SpokeIds(orgs: seq<string>, invs: seq<string>, ipc: Value, i: nat)
    requires i < |Spokes(orgs, invs, DomainNodes(ipc))|
    ensures |Spokes(orgs, invs, DomainNodes(ipc))[i].id| > 3
    ensures Spokes(orgs, invs, DomainNodes(ipc))[i].id[3] == ':'
  {
    var s := Spokes(orgs, invs, DomainNodes(ipc));
    if i < |orgs| {
      assert s[i] == NamedNodes(orgs, "org:", "organization")[i];
      PrefixChar("org:", orgs[i], 3);
    } else if i < |orgs| + |invs| {
      assert s[i] == NamedNodes(invs, "inv:", "inventor")[i - |orgs|];
      PrefixChar("inv:", invs[i - |orgs|], 3);
    } else {
      assert s[i] == DomainNodes(ipc)[0];
      PrefixChar("ipc:", ToStr(ipc), 3);
    }
  }

  /** The centre's id starts `patent:`, so no spoke has it. */
  lemma SpokeIsNotCenter(key: string, orgs: seq<string>, invs: seq<string>, ipc: Value, i: nat)
    requires i < |Spokes(orgs, invs, DomainNodes(ipc))|
    ensures Spokes(orgs, invs, DomainNodes(ipc))[i].id != "patent:" + key
  {
    SpokeIds(orgs, invs, ipc, i);
    PrefixChar("patent:", key, 3);
  }

  lemma PrefixChar(prefix: string, x: string, i: nat)
    requires i < |prefix|
    ensures |prefix + x| > i && (prefix + x)[i] == prefix[i]
  {
  }

  lemma SpokeEdgesAppend(center: string, s: seq<Node>, t: seq<Node>)
    ensures SpokeEdges(center, s + t) == SpokeEdges(center, s) + SpokeEdges(center, t)
  {
    var l, r := SpokeEdges(center, s + t), SpokeEdges(center, s) + SpokeEdges(center, t);
    assert |l| == |r|;
    forall i | 0 <= i < |l|
      ensures l[i] == r[i]
    {
      if i < |s| {
        assert (s + t)[i] == s[i];
      } else {
        assert (s + t)[i] == t[i - |s|];
      }
    }
  }

  /** `splitToArray(...).forEach(x => { nodes.push(...); edges.push(...) })`. */
  method PushNamed(center: string, names: seq<string>, prefix: string, kind: string, rel: string,
                   nodes: seq<Node>, edges: seq<Edge>)
    returns (nodes': seq<Node>, edges': seq<Edge>)
    requires rel == RelOf(kind)
    ensures nodes' == nodes + NamedNodes(names, prefix, kind)
    ensures edges' == edges + SpokeEdges(center, NamedNodes(names, prefix, kind))
  {
    nodes', edges' := nodes, edges;
    for i := 0 to |names|
      invariant nodes' == nodes + NamedNodes(names[..i], prefix, kind)
      invariant edges' == edges + SpokeEdges(center, NamedNodes(names[..i], prefix, kind))
    {
      var id := prefix + names[i];
      var node, edge := Node(id, Str(names[i]), kind), Edge(center, id, rel);
      NamedNodesSnoc(center, names, prefix, kind, i);
      AppendAssoc(nodes, NamedNodes(names[..i], prefix, kind), [node]);
      AppendAssoc(edges, SpokeEdges(center, NamedNodes(names[..i], prefix, kind)), [edge]);
      nodes' := nodes' + [node];
      edges' := edges' + [edge];
    }
    assert names[..|names|] == names;
  }

  lemma AppendAssoc<T>(a: seq<T>, b: seq<T>, c: seq<T>)
    ensures a + b + c == a + (b + c)
  {
  }

  lemma NamedNodesSnoc(center: string, names: seq<string>, prefix: string, kind: string, i: nat)
    requires i < |names|
    ensures NamedNodes(names[..i + 1], prefix, kind) == NamedNodes(names[..i], prefix, kind) + [Node(prefix + names[i], Str(names[i]), kind)]
    ensures SpokeEdges(center, NamedNodes(names[..i + 1], prefix, kind))
         == SpokeEdges(center, NamedNodes(names[..i], prefix, kind)) + [Edge(center, prefix + names[i], RelOf(kind))]
  {
    assert names[..i + 1][..i] == names[..i];
  }

  /** The pushes of the neighbour handler: the centre, the applicants, the
      inventors and the domain. */
  method BuildEgo(p: Patent) returns (nodes: seq<Node>, edges: seq<Edge>)
    ensures View(nodes, edges) == EgoOf(p)
  {
    var centerId := "patent:" + ToStr(p.pubNo);
    nodes := [Node(centerId, OrElse(p.title, p.pubNo), "patent")];
    edges := [];
    var orgs := SplitToArray(p.applicants, 5);
    var invs := SplitToArray(p.inventors, 5);
    nodes, edges := PushNamed(centerId, orgs, "org:", "organization", "APPLIED_BY", nodes, edges);
    nodes, edges := PushNamed(centerId, invs, "inv:", "inventor", "INVENTED_BY", nodes, edges);
    var domain: seq<Node> := [];
    if Truthy(p.ipcPrefix) {
      var id := "ipc:" + ToStr(p.ipcPrefix);
      domain := [Node(id, p.ipcPrefix, "domain")];
      nodes := nodes + domain;
      edges := edges + [Edge(centerId, id, "BELONGS_TO")];
      assert SpokeEdges(centerId, domain) == [Edge(centerId, id, "BELONGS_TO")];
    } else {
      assert SpokeEdges(centerId, domain) == [];
    }
    assert domain == DomainNodes(p.ipcPrefix);
    EgoFromPushes(CenterNode(p), orgs, invs, domain);
    EmptyFront(SpokeEdges(centerId, NamedNodes(orgs, "org:", "organization")),
               SpokeEdges(centerId, NamedNodes(invs, "inv:", "inventor")),
               SpokeEdges(centerId, domain));
  }

  lemma EmptyFront<T>(a: seq<T>, b: seq<T>, c: seq<T>)
    ensures [] + a + b + c == a + b + c
    ensures c == [] ==> [] + a + b == a + b + c
  {
  }

  /** The ego graph, regrouped as the handler builds it: one block of
      pushes per kind of spoke. */
  lemma EgoFromPushes(center: Node, orgs: seq<string>, invs: seq<string>, domain: seq<Node>)
    ensures Ego(center, Spokes(orgs, invs, domain)).nodes
         == [center] + NamedNodes(orgs, "org:", "organization") + NamedNodes(invs, "inv:", "inventor") + domain
    ensures Ego(center, Spokes(orgs, invs, domain)).edges
         == SpokeEdges(center.id, NamedNodes(orgs, "org:", "organization"))
          + SpokeEdges(center.id, NamedNodes(invs, "inv:", "inventor"))
          + SpokeEdges(center.id, domain)
  {
    var o, v := NamedNodes(orgs, "org:", "organization"), NamedNodes(invs, "inv:", "inventor");
    SpokeEdgesAppend(center.id, o + v, domain);
    SpokeEdgesAppend(center.id, o, v);
    ConsAppend(center, o, v, domain);
  }

  lemma ConsAppend<T>(x: T, a: seq<T>, b: seq<T>, c: seq<T>)
    ensures [x] + (a + b + c) == [x] + a + b + c
  {
  }

  // ---------------------------------------------------------------------------
  // Trimming the neighbour view

  /** `Math.max(1, Math.min(parseInt(String(limit), 10) || 50, 200))`, where
      an absent `limit` reads `'50'`. */
  function NodeBudget(limit: Value): (lim: int)
    ensures 1 <= lim <= 200
    ensures limit.Undefined? ==> lim == 50
    ensures !limit.Undefined? ==> lim == Paging.Saturate(ParseInt(ToStr(limit)), 50, 1, 200)
  {
    Paging.DefaultsParse();
    Paging.Clamp(Default(limit, Str("50")), 50, 1, 200)
  }

  /** `new Set(nodes.map(n => n.id))`. */
  function IdsOf(nodes: seq<Node>): set<string> {
    set i | 0 <= i < |nodes| :: nodes[i].id
  }

  /** `edges.filter(e => ids.has(e.source) && ids.has(e.target))`. */
  function KeepEdges(edges: seq<Edge>, ids: set<string>): (r: seq<Edge>)
    ensures |r| <= |edges|
    ensures forall e :: e in r <==> e in edges && e.source in ids && e.target in ids
  {
    if edges == [] then []
    else
      var n := |edges| - 1;
      LastSplit(edges);
      KeepEdges(edges[..n], ids) + (if edges[n].source in ids && edges[n].target in ids then [edges[n]] else [])
  }

  /** The first `lim` nodes and the edges whose both ends survive. */
  function Trim(g: View, lim: nat): (t: View)
    ensures |t.nodes| == (if lim < |g.nodes| then lim else |g.nodes|) && t.nodes == g.nodes[..|t.nodes|]
    ensures forall e :: e in t.edges <==> e in g.edges && e.source in IdsOf(t.nodes) && e.target in IdsOf(t.nodes)
  {
    var kept := Take(g.nodes, lim);
    View(kept, KeepEdges(g.edges, IdsOf(kept)))
  }

  /** Trimming keeps the first `lim` nodes, in order, and exactly the
      edges whose two ends are both the id of a kept node. */
  lemma TrimMeaning(g: View, lim: nat)
    ensures var t := Trim(g, lim);
            && |t.nodes| == (if lim < |g.nodes| then lim else |g.nodes|) && t.nodes == g.nodes[..|t.nodes|]
            && forall e :: e in t.edges <==>
                 && e in g.edges
                 && (exists j :: 0 <= j < |t.nodes| && t.nodes[j].id == e.source)
                 && (exists j :: 0 <= j < |t.nodes| && t.nodes[j].id == e.target)
  {
    var t := Trim(g, lim);
    forall e | e in g.edges
      ensures e.source in IdsOf(t.nodes) <==> exists j :: 0 <= j < |t.nodes| && t.nodes[j].id == e.source
      ensures e.target in IdsOf(t.nodes) <==> exists j :: 0 <= j < |t.nodes| && t.nodes[j].id == e.target
    {
    }
  }

  /** A trimmed ego graph starts with its centre. */
  lemma EgoTrimKeepsCenter(center: Node, spokes: seq<Node>, lim: nat)
    requires lim >= 1
    ensures var t := Trim(Ego(center, spokes), lim);
            |t.nodes| >= 1 && t.nodes[0] == center
  {
  }

  /** The edge to each of the first `lim - 1` spokes survives the trim. */
  lemma EgoTrimKeepsEdge(center: Node, spokes: seq<Node>, lim: nat, i: nat)
    requires i < |spokes| && i + 1 < lim
    ensures Edge(center.id, spokes[i].id, RelOf(spokes[i].kind)) in Trim(Ego(center, spokes), lim).edges
  {
    var g := Ego(center, spokes);
    var kept := Take(g.nodes, lim);
    var e := Edge(center.id, spokes[i].id, RelOf(spokes[i].kind));
    assert g.edges[i] == e;
    assert kept[0] == center && kept[i + 1] == spokes[i];
    assert center.id in IdsOf(kept) && spokes[i].id in IdsOf(kept);
    assert e in KeepEdges(g.edges, IdsOf(kept));
  }

  /** Every edge left after the trim runs from the centre to a kept spoke:
      nothing dangles. */
  lemma EgoTrimEdge(center: Node, spokes: seq<Node>, lim: nat, e: Edge)
    requires forall i :: 0 <= i < |spokes| ==> spokes[i].id != center.id
    requires e in Trim(Ego(center, spokes), lim).edges
    ensures var t := Trim(Ego(center, spokes), lim);
            && e in Ego(center, spokes).edges && e.source == center.id && e.target != center.id
            && exists j :: 1 <= j < |t.nodes| && t.nodes[j].id == e.target
  {
    var g, t := Ego(center, spokes), Trim(Ego(center, spokes), lim);
    var i :| 0 <= i < |g.edges| && g.edges[i] == e;
    assert e == Edge(center.id, spokes[i].id, RelOf(spokes[i].kind));
    var j :| 0 <= j < |t.nodes| && t.nodes[j].id == e.target;
    assert t.nodes[j] == g.nodes[j];
    assert j != 0;
  }

  /** In a patent's ego graph no spoke shares the centre's id. */
  lemma EgoOfSpokes(p: Patent)
    ensures var s := Spokes(SplitToArray(p.applicants, 5), SplitToArray(p.inventors, 5), DomainNodes(p.ipcPrefix));
            EgoOf(p) == Ego(CenterNode(p), s)
            && forall i :: 0 <= i < |s| ==> s[i].id != CenterNode(p).id
  {
    var orgs, invs := SplitToArray(p.applicants, 5), SplitToArray(p.inventors, 5);
    forall i | 0 <= i < |Spokes(orgs, invs, DomainNodes(p.ipcPrefix))|
      ensures Spokes(orgs, invs, DomainNodes(p.ipcPrefix))[i].id != CenterNode(p).id
    {
      SpokeIsNotCenter(ToStr(p.pubNo), orgs, invs, p.ipcPrefix, i);
    }
  }

  /** `GET /api/graph/neighbor`. `rows` is what the single-row lookup by
      `pub_no` returns. */
  method Neighbor(pubNo: Value, limit: Value, rows: seq<Patent>) returns (r: Result<View, string>)
    ensures !Truthy(pubNo) ==> r == Err("pub_no_required")
    ensures Truthy(pubNo) && rows == [] ==> r == Ok(View([], []))
    ensures Truthy(pubNo) && rows != [] ==> r == Ok(Trim(EgoOf(rows[0]), NodeBudget(limit)))
  {
    var pub := Default(pubNo, Str(""));
    if !Truthy(pub) {
      return Err("pub_no_required");
    }
    if |rows| == 0 {
      return Ok(View([], []));
    }
    var nodes, edges := BuildEgo(rows[0]);
    var lim := NodeBudget(limit);
    var limitedNodes := Take(nodes, lim);
    var nodeIds := IdsOf(limitedNodes);
    var limitedEdges := KeepEdges(edges, nodeIds);
    return Ok(View(limitedNodes, limitedEdges));
  }

  // ---------------------------------------------------------------------------
  // GET /api/graph/path

  /** The index of the first element of `xs` that `ys` holds. */
  function SharedIndex(xs: seq<string>, ys: seq<string>): (r: Option<nat>)
    ensures r.Some? ==> r.value < |xs| && xs[r.value] in ys
                        && forall k :: 0 <= k < r.value ==> xs[k] !in ys
    ensures r.None? ==> forall i :: 0 <= i < |xs| ==> xs[i] !in ys
  {
    if xs == [] then None
    else if xs[0] in ys then Some(0)
    else
      match SharedIndex(xs[1..], ys)
      case None => None
      case Some(i) => Some(i + 1)
  }

  /** `xs.find(x => ys.has(x))`. */
  function FindShared(xs: seq<string>, ys: seq<string>): (r: Option<string>)
    ensures r.None? <==> forall i :: 0 <= i < |xs| ==> xs[i] !in ys
    ensures r.Some? ==> r.value in xs && r.value in ys
  {
    match SharedIndex(xs, ys)
    case None => None
    case Some(i) => Some(xs[i])
  }

  /** `[...new Set(xs)].find(x => ys.has(x))` is the first element of `xs`
      that `ys` holds: iterating the set instead of the list changes
      nothing. */
  lemma {:induction false} FindSharedDedup(xs: seq<string>, ys: seq<string>)
    ensures var r := FindShared(Dedup(xs), ys);
            && (r.None? <==> forall i :: 0 <= i < |xs| ==> xs[i] !in ys)
            && (r.Some? ==> r.value in xs && r.value in ys
                            && forall k :: 0 <= k < FirstIndex(xs, r.value) ==> xs[k] !in ys)
  {
    var d := Dedup(xs);
    var r := FindShared(d, ys);
    if r.None? {
      forall i | 0 <= i < |xs|
        ensures xs[i] !in ys
      {
        var j :| 0 <= j < |d| && d[j] == xs[i];
      }
    } else {
      var i := SharedIndex(d, ys).value;
      forall k | 0 <= k < FirstIndex(xs, r.value)
        ensures xs[k] !in ys
      {
        if xs[k] in ys {
          var j :| 0 <= j < |d| && d[j] == xs[k];
          if j < i {
            assert false;
          } else if j == i {
            assert false;
          } else {
            DedupOrder(xs, i, j);
            assert false;
          }
        }
      }
    }
  }

  /** The applicant both patents share, preferring the one `a` lists first,
      among the first twenty of each. */
  function SharedOrg(a: Patent, b: Patent): Option<string> {
    FindShared(Dedup(SplitToArray(a.applicants, 20)), SplitToArray(b.applicants, 20))
  }

  /** `a.ipc && b.ipc && a.ipc === b.ipc ? a.ipc : null`. */
  function SharedIpc(a: Patent, b: Patent): (r: Value)
    ensures Truthy(r) <==> Truthy(a.ipcPrefix) && a.ipcPrefix == b.ipcPrefix
    ensures Truthy(r) ==> r == a.ipcPrefix && r == b.ipcPrefix
  {
    if Truthy(a.ipcPrefix) && Truthy(b.ipcPrefix) && a.ipcPrefix == b.ipcPrefix then a.ipcPrefix else Null
  }

  /** `a → mid → b`, both edges labelled `rel`. */
  function Bridge(a: Patent, b: Patent, mid: Node, rel: string): View {
    View([CenterNode(a), CenterNode(b), mid],
         [Edge(CenterId(a), mid.id, rel), Edge(mid.id, CenterId(b), rel)])
  }

  /** The paths the handler answers for two found patents: through the
      shared applicant if any, else through the shared IPC prefix, else
      none. */
  function PathsOf(a: Patent, b: Patent): (r: seq<View>)
    ensures |r| <= 1
    ensures forall v :: v in r ==>
              && |v.nodes| == 3 && v.nodes[0] == CenterNode(a) && v.nodes[1] == CenterNode(b)
              && |v.edges| == 2 && v.edges[0] == Edge(CenterId(a), v.nodes[2].id, v.edges[0].rel)
              && v.edges[1] == Edge(v.nodes[2].id, CenterId(b), v.edges[0].rel)
    ensures r == [] <==> SharedOrg(a, b).None? && !Truthy(SharedIpc(a, b))
  {
    PathsVia(a, b, SharedOrg(a, b), SharedIpc(a, b))
  }

  /** The paths given what the patents share: one path from `a` to `b`
      through a third node when they share anything. */
  function PathsVia(a: Patent, b: Patent, org: Option<string>, ipc: Value): (r: seq<View>)
    ensures |r| <= 1
    ensures r == [] <==> org.None? && !Truthy(ipc)
    ensures forall v :: v in r ==>
              && |v.nodes| == 3 && v.nodes[0] == CenterNode(a) && v.nodes[1] == CenterNode(b)
              && |v.edges| == 2 && v.edges[0] == Edge(CenterId(a), v.nodes[2].id, v.edges[0].rel)
              && v.edges[1] == Edge(v.nodes[2].id, CenterId(b), v.edges[0].rel)
  {
    match org
    case Some(o) => [Bridge(a, b, Node("org:" + o, Str(o), "organization"), "APPLIED_BY")]
    case None =>
      if Truthy(ipc) then [Bridge(a, b, Node("ipc:" + ToStr(ipc), ipc, "domain"), "BELONGS_TO")]
      else []
  }

  /** `GET /api/graph/path`. `aRows` and `bRows` are what the single-row
      lookups of `src` and `dst` return. */
  method Path(src: Value, dst: Value, aRows: seq<Patent>, bRows: seq<Patent>)
    returns (r: Result<seq<View>, string>)
    ensures !Truthy(src) || !Truthy(dst) ==> r == Err("src_dst_required")
    ensures Truthy(src) && Truthy(dst) && (aRows == [] || bRows == []) ==> r == Ok([])
    ensures Truthy(src) && Truthy(dst) && aRows != [] && bRows != [] ==> r == Ok(PathsOf(aRows[0], bRows[0]))
  {
    if !Truthy(Default(src, Str(""))) || !Truthy(Default(dst, Str(""))) {
      return Err("src_dst_required");
    }
    if |aRows| == 0 || |bRows| == 0 {
      return Ok([]);
    }
    var a, b := aRows[0], bRows[0];
    var aOrgs := Dedup(SplitToArray(a.applicants, 20));
    var bOrgs := SplitToArray(b.applicants, 20);
    var orgShared := FindShared(aOrgs, bOrgs);
    var ipcShared := SharedIpc(a, b);
    var nodes: seq<Node> := [];
    var edges: seq<Edge> := [];
    var aId := "patent:" + ToStr(a.pubNo);
    var bId := "patent:" + ToStr(b.pubNo);
    nodes := nodes + [Node(aId, OrElse(a.title, a.pubNo), "patent")];
    nodes := nodes + [Node(bId, OrElse(b.title, b.pubNo), "patent")];
    if orgShared.Some? {
      var mId := "org:" + orgShared.value;
      var mid := Node(mId, Str(orgShared.value), "organization");
      nodes := nodes + [mid];
      edges := edges + [Edge(aId, mId, "APPLIED_BY")];
      edges := edges + [Edge(mId, bId, "APPLIED_BY")];
      Pushed(CenterNode(a), CenterNode(b), mid, Edge(aId, mId, "APPLIED_BY"), Edge(mId, bId, "APPLIED_BY"));
      return Ok([View(nodes, edges)]);
    }
    if Truthy(ipcShared) {
      var mId := "ipc:" + ToStr(ipcShared);
      var mid := Node(mId, ipcShared, "domain");
      nodes := nodes + [mid];
      edges := edges + [Edge(aId, mId, "BELONGS_TO")];
      edges := edges + [Edge(mId, bId, "BELONGS_TO")];
      Pushed(CenterNode(a), CenterNode(b), mid, Edge(aId, mId, "BELONGS_TO"), Edge(mId, bId, "BELONGS_TO"));
      return Ok([View(nodes, edges)]);
    }
    return Ok([]);
  }

  lemma Pushed<S, T>(x: S, y: S, z: S, e: T, f: T)
    ensures [] + [x] + [y] + [z] == [x, y, z]
    ensures [] + [e] + [f] == [e, f]
  {
  }

  /** There is at most one path, and it runs from `a` through one middle
      node to `b`, both edges carrying the same relation. */
  lemma PathsShape(a: Patent, b: Patent)
    ensures PathsOf(a, b) == [] || exists mid: Node, rel: string :: PathsOf(a, b) == [Bridge(a, b, mid, rel)]
  {
    PathsViaShape(a, b, SharedOrg(a, b), SharedIpc(a, b));
  }

  lemma PathsViaShape(a: Patent, b: Patent, org: Option<string>, ipc: Value)
    ensures PathsVia(a, b, org, ipc) == [] || exists mid: Node, rel: string :: PathsVia(a, b, org, ipc) == [Bridge(a, b, mid, rel)]
  {
    match org
    case Some(o) =>
      var mid := Node("org:" + o, Str(o), "organization");
      assert PathsVia(a, b, org, ipc) == [Bridge(a, b, mid, "APPLIED_BY")];
    case None =>
      if Truthy(ipc) {
        var mid := Node("ipc:" + ToStr(ipc), ipc, "domain");
        assert PathsVia(a, b, org, ipc) == [Bridge(a, b, mid, "BELONGS_TO")];
      }
  }

  /** There is no path exactly when the patents share neither an applicant
      (among the first twenty of each) nor a non-empty IPC prefix. */
  lemma PathsEmpty(a: Patent, b: Patent)
    ensures var aOrgs, bOrgs := SplitToArray(a.applicants, 20), SplitToArray(b.applicants, 20);
            PathsOf(a, b) == [] <==>
              (forall i :: 0 <= i < |aOrgs| ==> aOrgs[i] !in bOrgs)
              && !(Truthy(a.ipcPrefix) && a.ipcPrefix == b.ipcPrefix)
  {
    FindSharedDedup(SplitToArray(a.applicants, 20), SplitToArray(b.applicants, 20));
  }

  /** A shared applicant wins: the path goes through the first applicant of
      `a` that `b` also lists, by `APPLIED_BY` edges. */
  lemma PathViaOrg(a: Patent, b: Patent)
    requires SharedOrg(a, b).Some?
    ensures var aOrgs, bOrgs := SplitToArray(a.applicants, 20), SplitToArray(b.applicants, 20);
            var org := SharedOrg(a, b).value;
            && PathsOf(a, b) == [Bridge(a, b, Node("org:" + org, Str(org), "organization"), "APPLIED_BY")]
            && org in aOrgs && org in bOrgs
            && forall k :: 0 <= k < FirstIndex(aOrgs, org) ==> aOrgs[k] !in bOrgs
  {
    FindSharedDedup(SplitToArray(a.applicants, 20), SplitToArray(b.applicants, 20));
  }

  /** Without a shared applicant, a shared non-empty IPC prefix joins the
      patents through its domain node, by `BELONGS_TO` edges. */
  lemma PathViaDomain(a: Patent, b: Patent)
    requires forall i :: 0 <= i < |SplitToArray(a.applicants, 20)| ==>
               SplitToArray(a.applicants, 20)[i] !in SplitToArray(b.applicants, 20)
    requires Truthy(a.ipcPrefix) && a.ipcPrefix == b.ipcPrefix
    ensures PathsOf(a, b) == [Bridge(a, b, Node("ipc:" + ToStr(a.ipcPrefix), a.ipcPrefix, "domain"), "BELONGS_TO")]
  {
    FindSharedDedup(SplitToArray(a.applicants, 20), SplitToArray(b.applicants, 20));
  }

  /** Whether two patents are joined does not depend on which is `src`. */
  lemma PathsSymmetric(a: Patent, b: Patent)
    ensures |PathsOf(a, b)| == |PathsOf(b, a)|
  {
    PathsShape(a, b);
    PathsShape(b, a);
    PathsEmpty(a, b);
    PathsEmpty(b, a);
    Disjoint(SplitToArray(a.applicants, 20), SplitToArray(b.applicants, 20));
  }

  lemma Disjoint(xs: seq<string>, ys: seq<string>)
    ensures (forall i :: 0 <= i < |xs| ==> xs[i] !in ys) <==> (forall j :: 0 <= j < |ys| ==> ys[j] !in xs)
  {
    if forall i :: 0 <= i < |xs| ==> xs[i] !in ys {
      forall j | 0 <= j < |ys|
        ensures ys[j] !in xs
      {
        if ys[j] in xs {
          assert false;
        }
      }
    } else {
      var i :| 0 <= i < |xs| && xs[i] in ys;
      var j :| 0 <= j < |ys| && ys[j] == xs[i];
    }
  }
}
