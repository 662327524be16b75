/**
 The code-owned impact policy: which node owns a path, when a policy is
 unambiguous, and what a set of changed paths affects.
 */
module Ownership {
  import opened Sequences
  import opened Text
  import opened Wrappers

  const DOCUMENTATION := "surface.documentation"

  datatype Node = Node(id: string, prefixes: seq<string>, exact: seq<string>, components: set<string>,
                       riskFlags: set<string>, renderFlags: set<string>)

  predicate ValidPath(path: string) {
    path != [] && path[0] != '/' && '\0' !in path
    && forall part :: part in Split(path, '/') ==> part != "" && part != "." && part != ".."
  }

  predicate ValidPrefix(prefix: string) {
    prefix != [] && prefix[|prefix| - 1] == '/' && ValidPath(prefix[..|prefix| - 1])
  }

  predicate Owns(n: Node, path: string) {
    path in n.exact || exists p :: p in n.prefixes && p <= path
  }

  /** A proper name of a file or folder. */
  ghost predicate IsName(name: string) {
    name != "" && name != "." && name != ".." && '/' !in name && '\0' !in name
  }

  /** The valid paths are proper names joined by slashes. */
  lemma ValidPathIff(path: string)
    ensures ValidPath(path) <==> exists names :: names != [] && path == Join(names, '/') && forall n :: n in names ==> IsName(n)
  {
    var pieces := Split(path, '/');
    SplitPieces(path, '/');
    if ValidPath(path) {
      forall n | n in pieces ensures IsName(n) { JoinHolds(pieces, '/', '\0'); }
    }
    if names :| names != [] && path == Join(names, '/') && forall n :: n in names ==> IsName(n) {
      SplitJoin(names, '/');
      JoinHolds(names, '/', '\0');
      assert names[0] in names && path[0] == names[0][0];
    }
  }

  /** What a joined text holds is the separator or in a piece. */
  lemma {:induction false} JoinHolds(pieces: seq<string>, sep: char, c: char)
    requires c != sep
    ensures c in Join(pieces, sep) <==> exists p :: p in pieces && c in p
  {
    if |pieces| == 1 {
      assert pieces[0] in pieces;
    } else if |pieces| > 1 {
      JoinHolds(pieces[1..], sep, c);
      var rest := Join(pieces[1..], sep);
      assert Join(pieces, sep) == pieces[0] + [sep] + rest;
      assert pieces[0] in pieces && forall p :: p in pieces <==> p == pieces[0] || p in pieces[1..];
    }
  }

  /** A node owns the paths it lists and the paths that begin with one of its prefixes. */
  lemma OwnsIff(n: Node, path: string)
    ensures Owns(n, path) <==> path in n.exact || exists q, rest :: q in n.prefixes && path == q + rest
  {
    if q :| q in n.prefixes && q <= path { assert path == q + path[|q|..]; }
  }

  // ---- accepting a policy ----

  ghost predicate Shaped(nodes: seq<Node>) {
    && (forall i, j :: 0 <= i < j < |nodes| ==> nodes[i].id != nodes[j].id)
    && (forall n, p :: n in nodes && p in n.prefixes ==> ValidPrefix(p))
    && (forall n, p :: n in nodes && p in n.exact ==> ValidPath(p))
    && (forall n :: n in nodes ==> Distinct(n.prefixes) && Distinct(n.exact))
  }

  ghost predicate Nested(nodes: seq<Node>, p: string, q: string) {
    p != q && p <= q
    && (exists i :: 0 <= i < |nodes| && p in nodes[i].prefixes)
    && (exists j :: 0 <= j < |nodes| && q in nodes[j].prefixes)
  }

  /** An exact path lies under no other node's prefix. */
  ghost predicate Separate(nodes: seq<Node>) {
    forall i, j, e, p :: 0 <= i < |nodes| && 0 <= j < |nodes| && e in nodes[i].exact && p in nodes[j].prefixes && p <= e
                         ==> i == j
  }

  ghost predicate Accepted(nodes: seq<Node>) {
    && Shaped(nodes)
    && Disjoint(nodes)
    && (forall p, q :: !Nested(nodes, p, q))
    && Separate(nodes)
  }

  /** In an accepted policy no path has two owners. */
  lemma AtMostOneOwner(nodes: seq<Node>, path: string, i: nat, j: nat)
    requires Accepted(nodes) && i < |nodes| && j < |nodes| && Owns(nodes[i], path) && Owns(nodes[j], path)
    ensures i == j
  {
    if path !in nodes[i].exact && path !in nodes[j].exact {
      var p :| p in nodes[i].prefixes && p <= path;
      var q :| q in nodes[j].prefixes && q <= path;
      assert !Nested(nodes, p, q) && !Nested(nodes, q, p);
      PrefixesOfOnePath(p, q, path);
    }
  }

  lemma PrefixesOfOnePath(p: string, q: string, path: string)
    requires p <= path && q <= path
    ensures p <= q || q <= p
  {
    if |p| <= |q| { assert p == path[..|p|] == q[..|p|]; } else { assert q == path[..|q|] == p[..|q|]; }
  }

  ghost predicate UniquelyOwned(nodes: seq<Node>) {
    forall path, i, j :: 0 <= i < |nodes| && 0 <= j < |nodes| && Owns(nodes[i], path) && Owns(nodes[j], path) ==> i == j
  }

  /** No node lists two prefixes of which one lies inside the other. */
  ghost predicate FlatPrefixes(nodes: seq<Node>) {
    forall i, p, q :: 0 <= i < |nodes| && p in nodes[i].prefixes && q in nodes[i].prefixes && p <= q ==> p == q
  }

  /**
   The checks are exact: a well-shaped policy is accepted if and only if no path has
   two owners and no single node nests its own prefixes.
   */
  lemma AcceptedIffUnambiguous(nodes: seq<Node>)
    requires Shaped(nodes)
    ensures Accepted(nodes) <==> UniquelyOwned(nodes) && FlatPrefixes(nodes)
  {
    if Accepted(nodes) {
      forall path, i, j | 0 <= i < |nodes| && 0 <= j < |nodes| && Owns(nodes[i], path) && Owns(nodes[j], path)
        ensures i == j
      {
        AtMostOneOwner(nodes, path, i, j);
      }
      forall i, p, q | 0 <= i < |nodes| && p in nodes[i].prefixes && q in nodes[i].prefixes && p <= q ensures p == q {
        assert !Nested(nodes, p, q);
      }
    }
    if UniquelyOwned(nodes) && FlatPrefixes(nodes) {
      forall i, j, p | 0 <= i < j < |nodes| && p in nodes[i].prefixes ensures p !in nodes[j].prefixes {
        if p in nodes[j].prefixes { assert Owns(nodes[i], p) && Owns(nodes[j], p); }
      }
      forall i, j, p | 0 <= i < j < |nodes| && p in nodes[i].exact ensures p !in nodes[j].exact {
        if p in nodes[j].exact { assert Owns(nodes[i], p) && Owns(nodes[j], p); }
      }
      forall p, q ensures !Nested(nodes, p, q) {
        if Nested(nodes, p, q) {
          var i :| 0 <= i < |nodes| && p in nodes[i].prefixes;
          var j :| 0 <= j < |nodes| && q in nodes[j].prefixes;
          assert Owns(nodes[i], q) && Owns(nodes[j], q);
        }
      }
      forall i, j, e, p | 0 <= i < |nodes| && 0 <= j < |nodes| && e in nodes[i].exact && p in nodes[j].prefixes && p <= e
        ensures i == j
      {
        assert Owns(nodes[i], e) && Owns(nodes[j], e);
      }
    }
  }

  // ---- the check itself ----

  /** `claimed` adds the claims of `keys` by `id` to `held`. */
  ghost predicate Claims(held: map<string, string>, keys: seq<string>, id: string, claimed: map<string, string>) {
    && (forall k :: k in claimed <==> k in held || k in keys)
    && (forall k :: k in held ==> k in claimed && claimed[k] == held[k])
    && (forall k :: k in keys ==> k !in held && k in claimed && claimed[k] == id)
    && Distinct(keys)
  }

  /** Claims every key for `id`, unless one is claimed already. */
  method Claim(held: map<string, string>, keys: seq<string>, id: string) returns (r: Option<map<string, string>>)
    ensures r.Some? <==> Distinct(keys) && forall k :: k in keys ==> k !in held
    ensures r.Some? ==> Claims(held, keys, id, r.value)
  {
    var claimed := held;
    for i := 0 to |keys|
      invariant Claims(held, keys[..i], id, claimed)
    {
      assert keys[..i + 1] == keys[..i] + [keys[i]];
      if keys[i] in claimed {
        assert keys[i] in held || keys[i] in keys[..i];
        return None;
      }
      claimed := claimed[keys[i] := id];
    }
    assert keys[..|keys|] == keys;
    return Some(claimed);
  }

  /** Some prefix in sorted order is a prefix of a later one. */
  predicate NestedInOrder(sorted: seq<string>) {
    exists i, j :: 0 <= i < j < |sorted| && sorted[i] <= sorted[j]
  }

  /** Sorting puts a prefix before everything inside it, so looking only at later entries misses nothing. */
  lemma SortedNesting(sorted: seq<string>)
    requires Increasing(sorted)
    ensures NestedInOrder(sorted) <==> exists p, q :: p in sorted && q in sorted && p != q && p <= q
  {
    if i, j :| 0 <= i < j < |sorted| && sorted[i] <= sorted[j] {
      LessTotal(sorted[i], sorted[j]);
      assert Less(sorted[i], sorted[j]);
      assert sorted[i] in sorted && sorted[j] in sorted && sorted[i] != sorted[j];
    }
    if p, q :| p in sorted && q in sorted && p != q && p <= q {
      PrefixIsLess(p, q);
      var i :| 0 <= i < |sorted| && sorted[i] == p;
      var j :| 0 <= j < |sorted| && sorted[j] == q;
      LessTotal(p, q);
      if j < i { assert false; }
    }
  }

  /** What the loop over the nodes has collected from the first `n` of them. */
  ghost predicate Collected(nodes: seq<Node>, n: nat, prefixes: map<string, string>, exact: map<string, string>)
    requires n <= |nodes|
  {
    CollectedKeys(nodes, n, prefixes, true) && CollectedKeys(nodes, n, exact, false)
  }

  function KeysOf(node: Node, ofPrefixes: bool): seq<string> {
    if ofPrefixes then node.prefixes else node.exact
  }

  /** `held` names the claimant of every prefix, or of every exact path, of the first `n` nodes. */
  ghost predicate CollectedKeys(nodes: seq<Node>, n: nat, held: map<string, string>, ofPrefixes: bool)
    requires n <= |nodes|
  {
    && (forall k :: k in held <==> exists i :: 0 <= i < n && k in KeysOf(nodes[i], ofPrefixes))
    && (forall i, k :: 0 <= i < n && k in KeysOf(nodes[i], ofPrefixes) ==> k in held && held[k] == nodes[i].id)
  }

  /** The conditions one node must meet when it joins the first `n`. */
  ghost predicate Joins(nodes: seq<Node>, n: nat)
    requires n < |nodes|
  {
    var node := nodes[n];
    && (forall i :: 0 <= i < n ==> nodes[i].id != node.id)
    && (forall p :: p in node.prefixes ==> ValidPrefix(p))
    && (forall e :: e in node.exact ==> ValidPath(e))
    && Distinct(node.prefixes) && Distinct(node.exact)
    && (forall i, p :: 0 <= i < n && p in nodes[i].prefixes ==> p !in node.prefixes)
    && (forall i, e :: 0 <= i < n && e in nodes[i].exact ==> e !in node.exact)
  }

  /** The claims of one node on top of those of the first `n`. */
  lemma CollectedMore(nodes: seq<Node>, n: nat, held: map<string, string>, claimed: map<string, string>, ofPrefixes: bool)
    requires n < |nodes| && CollectedKeys(nodes, n, held, ofPrefixes)
    requires Claims(held, KeysOf(nodes[n], ofPrefixes), nodes[n].id, claimed)
    ensures CollectedKeys(nodes, n + 1, claimed, ofPrefixes)
    ensures forall i, k :: 0 <= i < n && k in KeysOf(nodes[i], ofPrefixes) ==> k !in KeysOf(nodes[n], ofPrefixes)
  {
    var keys := KeysOf(nodes[n], ofPrefixes);
    forall k ensures k in claimed <==> exists i :: 0 <= i < n + 1 && k in KeysOf(nodes[i], ofPrefixes) {
      if k in held {
        var i :| 0 <= i < n && k in KeysOf(nodes[i], ofPrefixes);
      }
      if i :| 0 <= i < n + 1 && k in KeysOf(nodes[i], ofPrefixes) { assert i == n || k in held; }
    }
    forall i, k | 0 <= i < n + 1 && k in KeysOf(nodes[i], ofPrefixes) ensures claimed[k] == nodes[i].id {
      if i < n { assert k in held && held[k] == nodes[i].id; }
    }
  }

  /** The ids of the first `n` nodes. */
  ghost predicate AreIds(nodes: seq<Node>, n: nat, ids: set<string>)
    requires n <= |nodes|
  {
    forall id :: id in ids <==> exists i :: 0 <= i < n && nodes[i].id == id
  }

  method CollectNode(nodes: seq<Node>, n: nat, ids: set<string>, prefixes: map<string, string>, exact: map<string, string>)
    returns (r: Option<(map<string, string>, map<string, string>)>)
    requires n < |nodes| && Collected(nodes, n, prefixes, exact)
    requires AreIds(nodes, n, ids)
    ensures r.Some? <==> Joins(nodes, n)
    ensures r.Some? ==> Collected(nodes, n + 1, r.value.0, r.value.1)
  {
    var node := nodes[n];
    if node.id in ids || (exists p :: p in node.prefixes && !ValidPrefix(p)) || (exists e :: e in node.exact && !ValidPath(e)) {
      return None;
    }
    var p := Claim(prefixes, node.prefixes, node.id);
    var e := Claim(exact, node.exact, node.id);
    if p.None? || e.None? {
      return None;
    }
    CollectedMore(nodes, n, prefixes, p.value, true);
    CollectedMore(nodes, n, exact, e.value, false);
    return Some((p.value, e.value));
  }

  /** The ownership part of the policy check: it passes if and only if the policy is accepted. */
  method ValidateOwnership(nodes: seq<Node>) returns (ok: bool)
    ensures ok <==> Accepted(nodes)
  {
    var ids: set<string>, prefixes: map<string, string>, exact: map<string, string> := {}, map[], map[];
    var names: seq<string>, paths: seq<string> := [], [];
    for n := 0 to |nodes|
      invariant AreIds(nodes, n, ids)
      invariant Collected(nodes, n, prefixes, exact)
      invariant forall k :: 0 <= k < n ==> Joins(nodes, k)
      invariant forall p :: p in names <==> p in prefixes
      invariant forall e :: e in paths <==> e in exact
    {
      var r := CollectNode(nodes, n, ids, prefixes, exact);
      if r.None? {
        JoinsIffShaped(nodes);
        return false;
      }
      ids, prefixes, exact := ids + {nodes[n].id}, r.value.0, r.value.1;
      names, paths := names + nodes[n].prefixes, paths + nodes[n].exact;
    }
    JoinsIffShaped(nodes);
    ok := CheckOverlaps(nodes, prefixes, exact, names, paths);
  }

  method CheckOverlaps(nodes: seq<Node>, prefixes: map<string, string>, exact: map<string, string>, names: seq<string>, paths: seq<string>)
    returns (ok: bool)
    requires Collected(nodes, |nodes|, prefixes, exact)
    requires (forall p :: p in names <==> p in prefixes) && (forall e :: e in paths <==> e in exact)
    requires Shaped(nodes)
    ensures ok <==> (forall p, q :: !Nested(nodes, p, q)) && Separate(nodes)
  {
    var sorted := SortedSet(names);
    SortedSetIs(names);
    SortedNesting(sorted);
    if NestedInOrder(sorted) {
      ghost var p, q :| p in sorted && q in sorted && p != q && p <= q;
      assert Nested(nodes, p, q);
      return false;
    }
    assert forall p, q :: Nested(nodes, p, q) ==> p in sorted && q in sorted;
    ok := forall e :: e in paths ==> forall p :: p in sorted && p <= e ==> prefixes[p] == exact[e];
    SeparateIff(nodes, prefixes, exact, names, paths);
  }

  lemma SeparateIff(nodes: seq<Node>, prefixes: map<string, string>, exact: map<string, string>, names: seq<string>, paths: seq<string>)
    requires Collected(nodes, |nodes|, prefixes, exact) && Shaped(nodes)
    requires (forall p :: p in names <==> p in prefixes) && (forall e :: e in paths <==> e in exact)
    ensures Separate(nodes) <==> forall e, p :: e in paths && p in names && p <= e ==> prefixes[p] == exact[e]
  {
    if Separate(nodes) {
      forall e, p | e in paths && p in names && p <= e ensures prefixes[p] == exact[e] {
        var i :| 0 <= i < |nodes| && e in nodes[i].exact;
        var j :| 0 <= j < |nodes| && p in nodes[j].prefixes;
      }
    }
    if forall e, p :: e in paths && p in names && p <= e ==> prefixes[p] == exact[e] {
      forall i, j, e, p | 0 <= i < |nodes| && 0 <= j < |nodes| && e in nodes[i].exact && p in nodes[j].prefixes && p <= e
        ensures i == j
      {
        assert e in paths && p in names && nodes[i].id == exact[e] == prefixes[p] == nodes[j].id;
      }
    }
  }

  ghost predicate Disjoint(nodes: seq<Node>) {
    && (forall i, j, p :: 0 <= i < j < |nodes| && p in nodes[i].prefixes ==> p !in nodes[j].prefixes)
    && (forall i, j, p :: 0 <= i < j < |nodes| && p in nodes[i].exact ==> p !in nodes[j].exact)
  }

  lemma JoinsIffShaped(nodes: seq<Node>)
    ensures (forall k :: 0 <= k < |nodes| ==> Joins(nodes, k)) <==> Shaped(nodes) && Disjoint(nodes)
  {
    if forall k :: 0 <= k < |nodes| ==> Joins(nodes, k) {
      forall i, j | 0 <= i < j < |nodes|
        ensures nodes[i].id != nodes[j].id
        ensures forall p :: p in nodes[i].prefixes ==> p !in nodes[j].prefixes
        ensures forall p :: p in nodes[i].exact ==> p !in nodes[j].exact
      {
        assert Joins(nodes, j);
      }
      forall n | n in nodes
        ensures Distinct(n.prefixes) && Distinct(n.exact)
        ensures forall p :: p in n.prefixes ==> ValidPrefix(p)
        ensures forall p :: p in n.exact ==> ValidPath(p)
      {
        var k :| 0 <= k < |nodes| && nodes[k] == n;
        assert Joins(nodes, k);
      }
    }
    if Shaped(nodes) && Disjoint(nodes) {
      forall k | 0 <= k < |nodes| ensures Joins(nodes, k) {
        assert nodes[k] in nodes;
      }
    }
  }
}
