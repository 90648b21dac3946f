/** Commit ancestry as the object store records it, and the branch table, for
    stating what the history walk of git-graph.py reaches. */
module History {
  import opened Text
  import opened Objects
  import opened Parse

  /** The parents the object store records for a commit (none for an unknown hash). */
  function StoreParents(store: map<Hash, string>, c: Hash): (ps: seq<Hash>)
    ensures c !in store ==> ps == []
    ensures forall i :: 0 <= i < |ps| ==> IsWord(ps[i])
  {
    if c in store then CommitOf(c, store[c]).parents else []
  }

  /** `path` leads from its first commit to an ancestor, one parent at a time. */
  ghost predicate ParentChain(store: map<Hash, string>, path: seq<Hash>)
  {
    forall i :: 0 <= i < |path| - 1 ==> path[i + 1] in StoreParents(store, path[i])
  }

  /** `c` is `a` or one of its ancestors: some chain of parents leads from `a` to `c`. */
  ghost predicate IsAncestor(store: map<Hash, string>, a: Hash, c: Hash)
  {
    exists path :: |path| > 0 && path[0] == a && path[|path| - 1] == c && ParentChain(store, path)
  }

  /** Every commit is its own ancestor, through the one-commit chain. */
  lemma AncestorSelf(store: map<Hash, string>, a: Hash)
    ensures IsAncestor(store, a, a)
  {
    assert ParentChain(store, [a]);
  }

  /** An ancestor of a parent is an ancestor. */
  lemma AncestorStep(store: map<Hash, string>, a: Hash, p: Hash, c: Hash)
    requires p in StoreParents(store, a) && IsAncestor(store, p, c)
    ensures IsAncestor(store, a, c)
  {
    var path :| |path| > 0 && path[0] == p && path[|path| - 1] == c && ParentChain(store, path);
    var path' := [a] + path;
    forall i | 0 <= i < |path'| - 1 ensures path'[i + 1] in StoreParents(store, path'[i]) {
      if i > 0 {
        assert path'[i] == path[i - 1] && path'[i + 1] == path[i];
      }
    }
    assert path'[|path'| - 1] == c;
  }

  /** Every parent of a commit in `s` is in `s`. */
  ghost predicate ClosedUnderParents(store: map<Hash, string>, s: set<Hash>)
  {
    forall c, p :: c in s && p in StoreParents(store, c) ==> p in s
  }

  /** A set of commits closed under parents that holds a commit holds all of
      its ancestors. */
  lemma {:induction false} ClosedSetHoldsAncestors(store: map<Hash, string>, s: set<Hash>, path: seq<Hash>)
    requires ClosedUnderParents(store, s)
    requires |path| > 0 && path[0] in s && ParentChain(store, path)
    ensures forall i :: 0 <= i < |path| ==> path[i] in s
    decreases |path|
  {
    if |path| > 1 {
      var init := path[..|path| - 1];
      assert ParentChain(store, init) by {
        forall i | 0 <= i < |init| - 1 ensures init[i + 1] in StoreParents(store, init[i]) {
          assert init[i] == path[i] && init[i + 1] == path[i + 1];
        }
      }
      ClosedSetHoldsAncestors(store, s, init);
      assert path[|path| - 2] == init[|init| - 1];
      assert path[|path| - 1] in StoreParents(store, path[|path| - 2]);
      forall i | 0 <= i < |path| ensures path[i] in s {
        if i < |path| - 1 { assert path[i] == init[i]; }
      }
    }
  }

  /** `branch_to_commit` after recording each branch, first to last. */
  function RecordBranches(m: map<string, Hash>, branches: seq<Branch>): (r: map<string, Hash>)
    ensures m.Keys <= r.Keys
    ensures forall i :: 0 <= i < |branches| ==> branches[i].name in r
    decreases |branches|
  {
    if branches == [] then m
    else
      var b := branches[|branches| - 1];
      RecordBranches(m, branches[..|branches| - 1])[b.name := b.commit]
  }

  /** Recording one more branch of a list. */
  lemma RecordBranchesStep(m: map<string, Hash>, branches: seq<Branch>, i: nat)
    requires i < |branches|
    ensures RecordBranches(m, branches[..i + 1]) ==
            RecordBranches(m, branches[..i])[branches[i].name := branches[i].commit]
  {
    assert branches[..i + 1][..i] == branches[..i];
  }

  /** Recording the branches adds exactly their names. */
  lemma {:induction false} RecordBranchesKeys(m: map<string, Hash>, branches: seq<Branch>, n: string)
    ensures n in RecordBranches(m, branches) <==>
            n in m || exists i :: 0 <= i < |branches| && branches[i].name == n
    decreases |branches|
  {
    if branches != [] {
      var init := branches[..|branches| - 1];
      RecordBranchesKeys(m, init, n);
      if exists i :: 0 <= i < |branches| && branches[i].name == n {
        var i :| 0 <= i < |branches| && branches[i].name == n;
        if i < |init| { assert init[i].name == n; }
      }
      if exists i :: 0 <= i < |init| && init[i].name == n {
        var i :| 0 <= i < |init| && init[i].name == n;
        assert branches[i].name == n;
      }
    }
  }

  /** Each name ends up pointing at the commit of the last branch of that name,
      so with the distinct names of a refs directory every branch points at its
      own tip. */
  lemma {:induction false} RecordBranchesLastWins(m: map<string, Hash>, branches: seq<Branch>, i: nat)
    requires i < |branches|
    requires forall j :: i < j < |branches| ==> branches[j].name != branches[i].name
    ensures branches[i].name in RecordBranches(m, branches)
    ensures RecordBranches(m, branches)[branches[i].name] == branches[i].commit
    decreases |branches|
  {
    var init := branches[..|branches| - 1];
    if i < |init| {
      assert init[i] == branches[i];
      assert forall j :: i < j < |init| ==> init[j] == branches[j];
      RecordBranchesLastWins(m, init, i);
    }
  }

  /** A name no branch carries keeps its old commit. */
  lemma {:induction false} RecordBranchesKeepsOthers(m: map<string, Hash>, branches: seq<Branch>, n: string)
    requires n in m
    requires forall i :: 0 <= i < |branches| ==> branches[i].name != n
    ensures n in RecordBranches(m, branches) && RecordBranches(m, branches)[n] == m[n]
    decreases |branches|
  {
    if branches != [] {
      var init := branches[..|branches| - 1];
      assert forall i :: 0 <= i < |init| ==> init[i] == branches[i];
      RecordBranchesKeepsOthers(m, init, n);
    }
  }
}
