/** The recursive dictionary update of the VM definitions. */
module DictMerge {
  import opened Options

  /** A value that is not a mapping, or a mapping. */
  datatype Tree = Leaf(value: int) | Node(children: map<string, Tree>)

  /** `d.get(k, {})`. */
  function Child(d: Tree, k: string): (r: Tree)
    requires d.Node?
  {
    if k in d.children then d.children[k] else Node(map[])
  }

  /** No non-empty mapping of the update meets a value that is not a mapping. */
  ghost predicate Fits(d: Tree, u: Tree)
    decreases u
  {
    u.Node? ==>
      if d.Leaf? then u.children == map[]
      else forall k :: k in u.children && u.children[k].Node? ==> Fits(Child(d, k), u.children[k])
  }

  /** The updated tree: values of the update replace, mappings merge; an empty mapping leaves any value alone. */
  ghost function Merge(d: Tree, u: Tree): (r: Tree)
    decreases u
  {
    if u.Leaf? then u
    else if d.Leaf? then d
    else Node(map k | k in d.children.Keys + u.children.Keys ::
           if k !in u.children then d.children[k]
           else if u.children[k].Leaf? then u.children[k]
           else Merge(Child(d, k), u.children[k]))
  }

  /** The value at the end of a path, if there is one. */
  ghost function LeafAt(t: Tree, path: seq<string>): (r: Option<int>)
    decreases |path|
  {
    match t
    case Leaf(v) => if path == [] then Some(v) else None
    case Node(m) => if path == [] || path[0] !in m then None else LeafAt(m[path[0]], path[1..])
  }

  /** The path runs through or into a value of the tree. */
  ghost predicate Covered(t: Tree, path: seq<string>)
    decreases |path|
  {
    t.Leaf? || (path != [] && path[0] in t.children && Covered(t.children[path[0]], path[1..]))
  }

  lemma MergeAt(d: Tree, u: Tree, k: string)
    requires d.Node? && u.Node?
    ensures Merge(d, u).Node?
    ensures k in Merge(d, u).children <==> k in d.children || k in u.children
    ensures k in u.children ==> Merge(d, u).children[k] == Merge(Child(d, k), u.children[k])
    ensures k in d.children && k !in u.children ==> Merge(d, u).children[k] == d.children[k]
  {
  }

  lemma {:induction false} EmptyHasNoLeaf(path: seq<string>)
    ensures LeafAt(Node(map[]), path) == None && !Covered(Node(map[]), path)
  {
  }

  /** Every path of the result: the values of the update are there, whatever they cover is gone, and every other value is
      kept. */
  lemma {:induction false} MergeLeaves(d: Tree, u: Tree, path: seq<string>)
    requires Fits(d, u)
    ensures LeafAt(Merge(d, u), path) == if Covered(u, path) then LeafAt(u, path) else LeafAt(d, path)
    decreases |path|
  {
    if u.Node? {
      if d.Leaf? {
        EmptyHasNoLeaf(path);
      } else if path != [] {
        var k := path[0];
        MergeAt(d, u, k);
        if k in u.children {
          MergeLeaves(Child(d, k), u.children[k], path[1..]);
          EmptyHasNoLeaf(path[1..]);
        }
      }
    }
  }

  lemma {:induction false} MergeIntoEmpty(u: Tree)
    requires u.Node?
    ensures Fits(Node(map[]), u) && Merge(Node(map[]), u) == u
    decreases u
  {
    var e := Node(map[]);
    forall k | k in u.children && u.children[k].Node? ensures Fits(Child(e, k), u.children[k]) {
      MergeIntoEmpty(u.children[k]);
    }
    forall k | k in u.children ensures Merge(e, u).children[k] == u.children[k] {
      MergeAt(e, u, k);
      if u.children[k].Node? {
        MergeIntoEmpty(u.children[k]);
      }
    }
    assert Merge(e, u).children == u.children;
  }

  /** Updating twice is updating once. */
  lemma {:induction false} MergeIdempotent(d: Tree, u: Tree)
    requires Fits(d, u)
    ensures Fits(Merge(d, u), u) && Merge(Merge(d, u), u) == Merge(d, u)
    decreases u
  {
    if u.Node? && d.Node? {
      var m := Merge(d, u);
      forall k | k in u.children
        ensures Fits(Child(m, k), u.children[k]) && Merge(m, u).children[k] == m.children[k]
      {
        MergeAt(d, u, k);
        MergeAt(m, u, k);
        if u.children[k].Node? {
          MergeIdempotent(Child(d, k), u.children[k]);
        }
      }
      assert Merge(m, u).children == m.children;
    }
  }

  lemma FitsAt(d: Tree, u: Tree, k: string)
    requires d.Node? && u.Node? && Fits(d, u) && k in u.children
    ensures Fits(Child(d, k), u.children[k])
  {
  }

  lemma EmptyUpdate(d: Tree)
    ensures Fits(d, Node(map[])) && Merge(d, Node(map[])) == d
  {
    if d.Node? {
      assert Merge(d, Node(map[])).children == d.children;
    }
  }

  /** Two updates in turn are one update with the merged updates. */
  lemma {:induction false} MergeAssociative(a: Tree, b: Tree, c: Tree)
    requires Fits(a, b) && Fits(Merge(a, b), c) && Fits(b, c)
    ensures Fits(a, Merge(b, c)) && Merge(Merge(a, b), c) == Merge(a, Merge(b, c))
    decreases c
  {
    if c.Leaf? {
    } else if b.Leaf? || a.Leaf? {
      assert c.children == map[];
      EmptyUpdate(b);
      EmptyUpdate(Merge(a, b));
    } else {
      MergeNodes(a, b, c);
    }
  }

  lemma {:induction false} MergeNodes(a: Tree, b: Tree, c: Tree)
    requires a.Node? && b.Node? && c.Node?
    requires Fits(a, b) && Fits(Merge(a, b), c) && Fits(b, c)
    ensures Fits(a, Merge(b, c)) && Merge(Merge(a, b), c) == Merge(a, Merge(b, c))
    decreases c, 0
  {
    hide Merge;
    MergeAt(a, b, "");
    MergeAt(b, c, "");
    var ab, bc := Merge(a, b), Merge(b, c);
    MergeAt(ab, c, "");
    MergeAt(a, bc, "");
    var l, r := Merge(ab, c), Merge(a, bc);
    forall k
      ensures k in l.children <==> k in r.children
      ensures k in l.children ==> l.children[k] == r.children[k]
      ensures k in bc.children ==> Fits(Child(a, k), bc.children[k])
    {
      MergeAt(a, b, k);
      MergeAt(b, c, k);
      MergeAt(ab, c, k);
      MergeAt(a, bc, k);
      if k in b.children {
        FitsAt(a, b, k);
      }
      if k in c.children {
        FitsAt(ab, c, k);
        FitsAt(b, c, k);
        if k in b.children {
          MergeAssociative(Child(a, k), b.children[k], c.children[k]);
        } else {
          MergeOntoNothing(c.children[k]);
        }
      }
    }
    assert l.children == r.children;
  }

  lemma MergeOntoNothing(u: Tree)
    ensures Merge(Node(map[]), u) == u
  {
    if u.Node? {
      MergeIntoEmpty(u);
    }
  }

  // ---- the loop ----------------------------------------------------------------------------------------------

  /** The part of an update that concerns some keys. */
  ghost function Part(u: map<string, Tree>, keys: set<string>): (r: map<string, Tree>) {
    map k | k in u && k in keys :: u[k]
  }

  lemma PartStep(d: map<string, Tree>, u: map<string, Tree>, keys: set<string>, k: string, v: Tree)
    requires k in u && k !in keys && v == Merge(Child(Node(d), k), u[k])
    requires Fits(Node(d), Node(Part(u, keys))) && Fits(Child(Node(d), k), u[k])
    ensures var m := Merge(Node(d), Node(Part(u, keys)));
            && m.Node? && Child(m, k) == Child(Node(d), k)
            && Merge(Node(d), Node(Part(u, keys + {k}))) == Node(m.children[k := v])
            && Fits(Node(d), Node(Part(u, keys + {k})))
  {
    hide Merge;
    var p, q := Node(Part(u, keys)), Node(Part(u, keys + {k}));
    MergeAt(Node(d), p, k);
    MergeAt(Node(d), q, k);
    var m, m1 := Merge(Node(d), p), Merge(Node(d), q);
    forall j ensures j in m1.children <==> j in m.children || j == k
             ensures j in m1.children ==> m1.children[j] == if j == k then v else m.children[j]
    {
      MergeAt(Node(d), p, j);
      MergeAt(Node(d), q, j);
    }
    assert m1.children == m.children[k := v];
  }

  /** A tree that an update has reached only in part: at every path the old value, or what the update puts there. */
  ghost predicate Between(d: Tree, u: Tree, r: Tree) {
    forall path :: LeafAt(r, path) == LeafAt(d, path) || (Covered(u, path) && LeafAt(r, path) == LeafAt(u, path))
  }

  /** Some keys are done, and one of the others is reached in part. */
  lemma PartlyUpdated(d: map<string, Tree>, u: map<string, Tree>, keys: set<string>, k: string, sub: Tree)
    requires k in u && k !in keys && k in d && Fits(Node(d), Node(Part(u, keys))) && Between(d[k], u[k], sub)
    ensures Merge(Node(d), Node(Part(u, keys))).Node?
    ensures Between(Node(d), Node(u), Node(Merge(Node(d), Node(Part(u, keys))).children[k := sub]))
  {
    hide Merge, Between;
    MergeAt(Node(d), Node(Part(u, keys)), k);
    var m := Merge(Node(d), Node(Part(u, keys)));
    var r := Node(m.children[k := sub]);
    forall path ensures LeafAt(r, path) == LeafAt(Node(d), path) || (Covered(Node(u), path) && LeafAt(r, path) == LeafAt(Node(u), path)) {
      if path != [] && path[0] == k {
        BetweenAt(d[k], u[k], sub, path[1..]);
      } else if path != [] {
        assert LeafAt(r, path) == LeafAt(m, path);
        MergeLeaves(Node(d), Node(Part(u, keys)), path);
      }
    }
    BetweenAll(Node(d), Node(u), r);
  }

  lemma BetweenAt(d: Tree, u: Tree, r: Tree, path: seq<string>)
    requires Between(d, u, r)
    ensures LeafAt(r, path) == LeafAt(d, path) || (Covered(u, path) && LeafAt(r, path) == LeafAt(u, path))
  {
  }

  lemma BetweenAll(d: Tree, u: Tree, r: Tree)
    requires forall path :: LeafAt(r, path) == LeafAt(d, path) || (Covered(u, path) && LeafAt(r, path) == LeafAt(u, path))
    ensures Between(d, u, r)
  {
  }

  lemma BetweenSelf(d: Tree, u: Tree)
    ensures Between(d, u, d)
  {
  }

  /** Into a key that is not there an update never fails. */
  lemma FailsOnlyInside(d: Tree, k: string, u: Tree)
    requires d.Node? && u.Node? && !Fits(Child(d, k), u)
    ensures k in d.children
  {
    MergeIntoEmpty(u);
  }

  /** `update(d, u)` of the source: fails exactly if a non-empty mapping meets a value that is not a mapping, and otherwise
      merges.  `r` is the updated dictionary, and after a failure the dictionary as far as it was updated in place. */
  method Update(d: Tree, u: map<string, Tree>) returns (ok: bool, r: Tree)
    ensures ok <==> Fits(d, Node(u))
    ensures ok ==> r == Merge(d, Node(u))
    ensures !ok ==> Between(d, Node(u), r)
    decreases Node(u)
  {
    hide Between;
    r := d;
    BetweenSelf(d, Node(u));
    if d.Leaf? {
      // An empty loop returns the value as it is; any assignment into it raises.
      ok := u == map[];
      return;
    }
    ok := true;
    var todo := u.Keys;
    ghost var done: set<string> := {};
    assert Part(u, {}) == map[];
    EmptyUpdate(d);
    while todo != {}
      invariant ok && todo <= u.Keys && done == u.Keys - todo && r.Node?
      invariant Fits(d, Node(Part(u, done))) && r == Merge(d, Node(Part(u, done)))
      decreases todo
    {
      var k :| k in todo;
      var v := u[k];
      MergeAt(d, Node(Part(u, done)), k);
      if v.Node? {
        var s;
        ok, s := Update(Child(r, k), v.children);
        if !ok {
          assert !Fits(Child(d, k), v);
          FailsOnlyInside(d, k, v);
          PartlyUpdated(d.children, u, done, k, s);
          if k in r.children {
            r := Node(r.children[k := s]);  // the inner dictionary is updated in place
          }
          return;
        }
        v := s;
      }
      PartStep(d.children, u, done, k, v);
      r := Node(r.children[k := v]);
      todo, done := todo - {k}, done + {k};
    }
    assert Part(u, done) == u;
  }
}
