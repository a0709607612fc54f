/** The character trie that finds exact paths: nodes on the heap, linked by maps of children. It
    refines a map from paths to the candidates inserted there, in insertion order. */
module PathTries {

  datatype Candidate<T> = Candidate(order: nat, value: T)

  class PathTrieNode<T> {
    var children: map<char, PathTrieNode<T>>
    var values: seq<Candidate<T>>
    /** The path that leads here from the root. */
    ghost const path: string

    constructor (ghost path: string)
      ensures children == map[] && values == [] && this.path == path
    {
      children, values := map[], [];
      this.path := path;
    }
  }

  ghost function Parent(path: string): string
    requires path != ""
  {
    path[..|path| - 1]
  }

  lemma SameChild(p: string, c: char, q: string, d: char)
    ensures p + [c] == q + [d] <==> p == q && c == d
  {
    assert (p + [c])[|p|] == c && (q + [d])[|q|] == d;
    assert (p + [c])[..|p|] == p && (q + [d])[..|q|] == q;
  }

  class PathTrie<T> {
    const root: PathTrieNode<T>
    /** The node each path leads to, for the paths that lead somewhere. */
    ghost var nodes: map<string, PathTrieNode<T>>

    ghost var Repr: set<object>

    ghost predicate Valid()
      reads this, Repr
    {
      && this in Repr
      && (forall path :: path in nodes ==> nodes[path] in Repr)
      && "" in nodes && nodes[""] == root
      && (forall path :: path in nodes ==> nodes[path].path == path)
      && (forall path {:trigger Parent(path)} :: path in nodes && path != "" ==> Parent(path) in nodes)
      && (forall path, ch :: path in nodes ==> (ch in nodes[path].children <==> path + [ch] in nodes))
      && (forall path, ch :: path in nodes && ch in nodes[path].children ==>
          nodes[path].children[ch] == nodes[path + [ch]])
    }

    /** The candidates inserted at a path. */
    ghost function Contents(path: string): seq<Candidate<T>>
      requires Valid()
      reads this, Repr
    {
      if path in nodes then nodes[path].values else []
    }

    constructor ()
      ensures Valid() && fresh(Repr) && forall path :: Contents(path) == []
    {
      root := new PathTrieNode("");
      new;
      nodes, Repr := map["" := root], {this, root};
    }

    /** The child of `node` for the next character, created when missing. */
    method Descend(ghost path: string, node: PathTrieNode<T>, ch: char) returns (child: PathTrieNode<T>)
      requires Valid() && path in nodes && nodes[path] == node
      modifies this, node
      ensures Valid() && fresh(Repr - old(Repr)) && old(Repr) <= Repr
      ensures path + [ch] in nodes && nodes[path + [ch]] == child
      ensures forall p :: Contents(p) == old(Contents(p))
    {
      if ch !in node.children {
        child := new PathTrieNode(path + [ch]);
        ghost var start := nodes;
        node.children := node.children[ch := child];
        nodes, Repr := nodes[path + [ch] := child], Repr + {child};
        assert nodes[path + [ch]] == child && forall p :: p in start ==> p in nodes && nodes[p] == start[p];
        forall p, c | p in nodes
          ensures c in nodes[p].children <==> p + [c] in nodes
        {
          SameChild(p, c, path, ch);
          assert Parent(p + [c]) == p;
        }
        assert Parent(path + [ch]) == path;
      } else {
        child := node.children[ch];
      }
    }

    /** Appends a candidate to the list of one path and changes the answer at no other path. */
    method Insert(path: string, candidate: Candidate<T>)
      requires Valid()
      modifies Repr
      ensures Valid() && fresh(Repr - old(Repr))
      ensures Contents(path) == old(Contents(path)) + [candidate]
      ensures forall other :: other != path ==> Contents(other) == old(Contents(other))
    {
      var node := root;
      assert path[..0] == "";
      for i := 0 to |path|
        invariant Valid() && fresh(Repr - old(Repr)) && old(Repr) <= Repr
        invariant path[..i] in nodes && nodes[path[..i]] == node
        invariant forall p :: Contents(p) == old(Contents(p))
      {
        assert path[..i] + [path[i]] == path[..i + 1];
        node := Descend(path[..i], node, path[i]);
      }
      assert path[..|path|] == path;
      node.values := node.values + [candidate];
    }

    lemma {:induction false} PrefixesLead(path: string, i: nat)
      requires Valid() && path in nodes && i <= |path|
      ensures path[..i] in nodes
      decreases |path|
    {
      if i < |path| {
        PrefixesLead(Parent(path), i);
        assert Parent(path)[..i] == path[..i];
      } else {
        assert path[..i] == path;
      }
    }

    /** The candidates inserted at exactly this path; none for a mere prefix of an inserted path. */
    method ExactCandidates(path: string) returns (found: seq<Candidate<T>>)
      requires Valid()
      ensures found == Contents(path)
    {
      var node := root;
      assert path[..0] == "";
      for i := 0 to |path|
        invariant path[..i] in nodes && nodes[path[..i]] == node
      {
        assert path[..i] + [path[i]] == path[..i + 1];
        if path[i] !in node.children {
          if path in nodes {
            PrefixesLead(path, i + 1);
          }
          return [];
        }
        node := node.children[path[i]];
      }
      assert path[..|path|] == path;
      found := node.values;
    }
  }
}
