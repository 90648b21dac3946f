/** The `GitRepo` class of git-graph.py: it rebuilds the object graph of a
    repository (commits, trees, blobs, branches) from the text of its objects,
    resolving every hash through a cache and walking commit ancestry once. */
module GitGraph {
  import opened Text
  import opened Objects
  import opened Multimaps
  import opened Parse
  import opened History

  // ---------------------------------------------------------------------------
  // Tree resolution: what the cache and the tree indices keep

  /** The rank of a hash, 0 for a hash without one. */
  function RankOf(rank: map<Hash, nat>, h: Hash): nat
  {
    if h in rank then rank[h] else 0
  }

  /** The tree structure of the store is acyclic: every `tree` line of a stored
      object names a hash of lower rank. Resolving a tree recurses into its
      subtrees before it caches anything, so without this the recursion has no end. */
  ghost predicate TreeRanked(store: map<Hash, string>, rank: map<Hash, nat>)
  {
    forall h, c :: h in store && c in SubtreeRefs(store[h]) ==> RankOf(rank, c) < RankOf(rank, h)
  }

  /** `obj`, cached under `h`, is what parsing the stored text of `h` gives. */
  ghost predicate Sound(store: map<Hash, string>, h: Hash, obj: Object)
  {
    && h in store
    && match obj
       case CommitObject(c) => c == CommitOf(h, store[h])
       case TreeObject(t) =>
         var es := ParseEntries(SplitLines(store[h]));
         es.Ok? && t == TreeOf(h, t.name, es.value)
  }

  /** Every cached object agrees with the store. */
  ghost predicate CacheSound(store: map<Hash, string>, cache: map<Hash, Object>)
  {
    forall h {:trigger Sound(store, h, cache[h])} :: h in cache ==> Sound(store, h, cache[h])
  }

  /** Every tree in `cache` has its subtrees in `cache` and its blobs in `blobs`. */
  ghost predicate Resolved(cache: map<Hash, Object>, blobs: map<Hash, Blob>)
  {
    forall h :: h in cache && cache[h].TreeObject? ==>
      && (forall c {:trigger c in cache[h].tree.trees} :: c in cache[h].tree.trees ==> c in cache)
      && (forall b {:trigger b in cache[h].tree.blobs} :: b in cache[h].tree.blobs ==> b in blobs)
  }

  /** The keys of an index are trees of `cache`, each holding some value. */
  ghost predicate IndexKeys(cache: map<Hash, Object>, index: map<Hash, seq<Hash>>)
  {
    && NonEmptyValues(index)
    && (forall h {:trigger h in index} :: h in index ==> h in cache && cache[h].TreeObject?)
  }

  /** Each tree of `cache` has its subtrees under its key in `trees` and its
      blobs under its key in `blobs`, without duplicates, in order. */
  ghost predicate IndexValues(cache: map<Hash, Object>, trees: map<Hash, seq<Hash>>, blobs: map<Hash, seq<Hash>>)
  {
    forall h :: h in cache && cache[h].TreeObject? ==>
      && Get(trees, h) == Dedup(cache[h].tree.trees)
      && Get(blobs, h) == Dedup(cache[h].tree.blobs)
  }

  /** `trees` and `blobs` index exactly the trees of `cache`. */
  ghost predicate Indexed(cache: map<Hash, Object>, trees: map<Hash, seq<Hash>>, blobs: map<Hash, seq<Hash>>)
  {
    IndexKeys(cache, trees) && IndexKeys(cache, blobs) && IndexValues(cache, trees, blobs)
  }

  /** Each recorded blob is keyed by its own hash. */
  ghost predicate BlobsKeyed(blobs: map<Hash, Blob>)
  {
    forall b :: b in blobs ==> blobs[b].hash == b
  }

  /** What resolving trees keeps: the cache agrees with the store, cached trees
      are resolved all the way down, the tree indices are exact and blobs are
      keyed by their hashes. */
  ghost predicate TreeState(store: map<Hash, string>, rank: map<Hash, nat>, cache: map<Hash, Object>,
                            trees: map<Hash, seq<Hash>>, blobsIndex: map<Hash, seq<Hash>>, blobs: map<Hash, Blob>)
  {
    && TreeRanked(store, rank)
    && CacheSound(store, cache)
    && Resolved(cache, blobs)
    && Indexed(cache, trees, blobsIndex)
    && BlobsKeyed(blobs)
  }

  /** An error the source raises for this store and cache: a name the store
      lacks (or the `None` asked for when a commit has no `tree` line), a
      malformed line of some stored text, or a hash the walk reached that the
      cache holds as a tree. */
  ghost predicate Justified(store: map<Hash, string>, cache: map<Hash, Object>, e: Error)
  {
    match e
    case ObjectNotFound(h) => h !in store || h == NoTreeName
    case MalformedTreeEntry(line) =>
      Malformed(line) && exists t {:trigger SplitLines(store[t])} :: t in store && line in SplitLines(store[t])
    case NotACommit(h) => h in cache && cache[h].TreeObject?
  }

  /** An error resolving a tree raises: a name the store lacks, or a malformed
      line of some stored text. */
  ghost predicate TreeError(store: map<Hash, string>, e: Error)
  {
    match e
    case ObjectNotFound(h) => h !in store
    case MalformedTreeEntry(line) =>
      Malformed(line) && exists t {:trigger SplitLines(store[t])} :: t in store && line in SplitLines(store[t])
    case NotACommit(_) => false
  }

  /** Every object of `cache` is still in `cache'`, unchanged. */
  ghost predicate Grew(cache: map<Hash, Object>, cache': map<Hash, Object>)
  {
    forall h {:trigger h in cache} :: h in cache ==> h in cache' && cache'[h] == cache[h]
  }

  // ---------------------------------------------------------------------------
  // Tree names: what the graph prints for each tree

  /** Some `tree` line of a stored text names the hash `h` and calls it `name`. */
  ghost predicate NamedBy(store: map<Hash, string>, h: Hash, name: string)
  {
    exists p, line {:trigger line in SplitLines(store[p])} ::
      && p in store && line in SplitLines(store[p]) && IsEntryLine(line, "tree")
      && Tokens(line)[2] == h && Tokens(line)[3] == name
  }

  /** Every tree of `cache` outside `skip` carries the root name `/` or the
      name a `tree` line of the store gives its hash. */
  ghost predicate TreesNamed(store: map<Hash, string>, cache: map<Hash, Object>, skip: set<Hash>)
  {
    forall h {:trigger h in cache} :: h in cache && h !in skip && cache[h].TreeObject? ==>
      cache[h].tree.name == RootName || NamedBy(store, h, cache[h].tree.name)
  }

  /** The tree `t` is cached as parsed from its text, under the root name. */
  ghost predicate RootCached(store: map<Hash, string>, cache: map<Hash, Object>, t: Hash)
  {
    && t in store && t in cache
    && ParseEntries(SplitLines(store[t])).Ok?
    && cache[t] == TreeObject(TreeOf(t, RootName, ParseEntries(SplitLines(store[t])).value))
  }

  // ---------------------------------------------------------------------------
  // The blob table: what it may gain

  /** The blob hashes the trees of `cache` list. */
  ghost function ListedBlobs(cache: map<Hash, Object>): set<Hash>
  {
    set t, b | t in cache && cache[t].TreeObject? && b in cache[t].tree.blobs :: b
  }

  /** The blob hashes the trees `cache'` holds beyond `cache` list. */
  ghost function NewTreeBlobs(cache: map<Hash, Object>, cache': map<Hash, Object>): set<Hash>
  {
    set t, b | t in cache' && t !in cache && cache'[t].TreeObject? && b in cache'[t].tree.blobs :: b
  }

  /** The hash a `blob` line records, if `line` is one. */
  ghost function BlobOfLine(line: string): set<Hash>
  {
    if IsEntryLine(line, "blob") then {Tokens(line)[2]} else {}
  }

  /** Every blob recorded is listed by a cached tree. */
  ghost predicate BlobsListed(cache: map<Hash, Object>, blobs: map<Hash, Blob>)
  {
    forall b {:trigger b in blobs} :: b in blobs ==> b in ListedBlobs(cache)
  }

  /** `blobs'` keeps every key of `blobs`, and every entry it adds or changes
      is keyed by a hash of `allowed`. */
  ghost predicate BlobsWithin(blobs: map<Hash, Blob>, blobs': map<Hash, Blob>, allowed: set<Hash>)
  {
    && blobs.Keys <= blobs'.Keys
    && forall b {:trigger b in blobs'} :: b in blobs' && (b !in blobs || blobs'[b] != blobs[b]) ==> b in allowed
  }

  /** Two rounds of changes to the blob table change only what either round allows. */
  lemma BlobsWithinTrans(blobs0: map<Hash, Blob>, blobs1: map<Hash, Blob>, blobs2: map<Hash, Blob>,
                         a: set<Hash>, b: set<Hash>)
    requires BlobsWithin(blobs0, blobs1, a) && BlobsWithin(blobs1, blobs2, b)
    ensures BlobsWithin(blobs0, blobs2, a + b)
  {
    forall x | x in blobs2 && (x !in blobs0 || blobs2[x] != blobs0[x]) ensures x in a + b {
      if x in blobs1 && blobs2[x] == blobs1[x] {
        assert x in blobs1 && (x !in blobs0 || blobs1[x] != blobs0[x]);
      }
    }
  }

  /** The trees two rounds of caching add list the blobs the trees of either round list. */
  lemma NewTreeBlobsTrans(cache0: map<Hash, Object>, cache1: map<Hash, Object>, cache2: map<Hash, Object>)
    requires Grew(cache0, cache1) && Grew(cache1, cache2)
    ensures NewTreeBlobs(cache0, cache1) + NewTreeBlobs(cache1, cache2) <= NewTreeBlobs(cache0, cache2)
  {
    forall x | x in NewTreeBlobs(cache0, cache1) ensures x in NewTreeBlobs(cache0, cache2) {
      var t :| t in cache1 && t !in cache0 && cache1[t].TreeObject? && x in cache1[t].tree.blobs;
      assert cache2[t] == cache1[t];
    }
    forall x | x in NewTreeBlobs(cache1, cache2) ensures x in NewTreeBlobs(cache0, cache2) {
      var t :| t in cache2 && t !in cache1 && cache2[t].TreeObject? && x in cache2[t].tree.blobs;
      assert t !in cache0;
    }
  }

  /** Two stretches that each change only blobs of the trees they cache
      change only blobs of the trees they cache together. */
  lemma BlobsGrew(cache0: map<Hash, Object>, cache1: map<Hash, Object>, cache2: map<Hash, Object>,
                  blobs0: map<Hash, Blob>, blobs1: map<Hash, Blob>, blobs2: map<Hash, Blob>)
    requires Grew(cache0, cache1) && Grew(cache1, cache2)
    requires BlobsWithin(blobs0, blobs1, NewTreeBlobs(cache0, cache1))
    requires BlobsWithin(blobs1, blobs2, NewTreeBlobs(cache1, cache2))
    ensures BlobsWithin(blobs0, blobs2, NewTreeBlobs(cache0, cache2))
  {
    BlobsWithinTrans(blobs0, blobs1, blobs2, NewTreeBlobs(cache0, cache1), NewTreeBlobs(cache1, cache2));
    NewTreeBlobsTrans(cache0, cache1, cache2);
  }

  /** Measured from a smaller cache, the trees added are more, and so are their blobs. */
  lemma BlobsWithinWiden(blobs: map<Hash, Blob>, blobs': map<Hash, Blob>,
                         cache0: map<Hash, Object>, cache1: map<Hash, Object>, cache2: map<Hash, Object>)
    requires cache0.Keys <= cache1.Keys && BlobsWithin(blobs, blobs', NewTreeBlobs(cache1, cache2))
    ensures BlobsWithin(blobs, blobs', NewTreeBlobs(cache0, cache2))
  {
    forall x | x in NewTreeBlobs(cache1, cache2) ensures x in NewTreeBlobs(cache0, cache2) {
      var t :| t in cache2 && t !in cache1 && cache2[t].TreeObject? && x in cache2[t].tree.blobs;
      assert t !in cache0;
    }
  }

  /** Caching a parsed tree makes its blobs blobs of a newly cached tree. */
  lemma TreeBlobsCached(blobs: map<Hash, Blob>, blobs': map<Hash, Blob>,
                        cache0: map<Hash, Object>, cache1: map<Hash, Object>, hash: Hash, tree: Tree)
    requires hash !in cache0 && hash !in cache1
    requires BlobsWithin(blobs, blobs', NewTreeBlobs(cache0, cache1) + (set b | b in tree.blobs))
    ensures BlobsWithin(blobs, blobs', NewTreeBlobs(cache0, cache1[hash := TreeObject(tree)]))
  {
    var cache2 := cache1[hash := TreeObject(tree)];
    forall x | x in NewTreeBlobs(cache0, cache1) + (set b | b in tree.blobs)
      ensures x in NewTreeBlobs(cache0, cache2)
    {
      if x in tree.blobs {
        assert hash in cache2 && hash !in cache0 && cache2[hash].TreeObject? && x in cache2[hash].tree.blobs;
      } else {
        var t :| t in cache1 && t !in cache0 && cache1[t].TreeObject? && x in cache1[t].tree.blobs;
        assert cache2[t] == cache1[t];
      }
    }
  }

  /** What a line that parses keeps about the blob table, from the parse's
      start (0) over the line's start (1) to its end (2): the table changes
      only at blobs of the trees cached and at the `blob` hashes gathered. */
  lemma BlobsTaken(store: map<Hash, string>, rank: map<Hash, nat>,
                   cache0: map<Hash, Object>, cache1: map<Hash, Object>, cache2: map<Hash, Object>,
                   blobs0: map<Hash, Blob>, blobs1: map<Hash, Blob>, blobs2: map<Hash, Blob>,
                   hash: Hash, line: string, trees: seq<Hash>, blobHashes: seq<Hash>,
                   r: Result<(seq<Hash>, seq<Hash>), Error>)
    requires Grew(cache0, cache1) && Grew(cache1, cache2)
    requires BlobsWithin(blobs0, blobs1, NewTreeBlobs(cache0, cache1) + (set b | b in blobHashes))
    requires BlobsWithin(blobs1, blobs2, NewTreeBlobs(cache1, cache2) + BlobOfLine(line))
    requires LineOutcome(store, rank, cache1, hash, line, trees, blobHashes, r) && r.Ok?
    ensures BlobsWithin(blobs0, blobs2, NewTreeBlobs(cache0, cache2) + (set b | b in r.value.1))
  {
    var a := NewTreeBlobs(cache0, cache1) + (set b | b in blobHashes);
    var b := NewTreeBlobs(cache1, cache2) + BlobOfLine(line);
    BlobsWithinTrans(blobs0, blobs1, blobs2, a, b);
    NewTreeBlobsTrans(cache0, cache1, cache2);
    forall x | x in a + b ensures x in NewTreeBlobs(cache0, cache2) + (set b | b in r.value.1) {
      if x in BlobOfLine(line) {
        assert r.value.1 == blobHashes + [Tokens(line)[2]];
      } else if x in blobHashes {
        assert r.value.1[..|blobHashes|] == blobHashes;
      }
    }
  }

  /** While the cache grows and the blob table changes only at blobs of the
      trees added, every recorded blob stays listed by a cached tree. */
  lemma BlobsListedKept(cache: map<Hash, Object>, cache': map<Hash, Object>,
                        blobs: map<Hash, Blob>, blobs': map<Hash, Blob>)
    requires BlobsListed(cache, blobs) && Grew(cache, cache')
    requires BlobsWithin(blobs, blobs', NewTreeBlobs(cache, cache'))
    ensures BlobsListed(cache', blobs')
  {
    forall x | x in blobs' ensures x in ListedBlobs(cache') {
      if x in NewTreeBlobs(cache, cache') {
        var t :| t in cache' && t !in cache && cache'[t].TreeObject? && x in cache'[t].tree.blobs;
      } else {
        assert x in blobs;
        var t :| t in cache && cache[t].TreeObject? && x in cache[t].tree.blobs;
        assert cache'[t] == cache[t];
      }
    }
  }

  /** With every cached tree's blobs recorded and every recorded blob listed,
      the blob table holds exactly the blobs the cached trees list: one
      rendered blob node per blob of a resolved tree. */
  lemma BlobKeysExact(cache: map<Hash, Object>, blobs: map<Hash, Blob>)
    requires Resolved(cache, blobs) && BlobsListed(cache, blobs)
    ensures blobs.Keys == ListedBlobs(cache)
  {
    forall x | x in ListedBlobs(cache) ensures x in blobs {
      var t :| t in cache && cache[t].TreeObject? && x in cache[t].tree.blobs;
    }
  }

  /** `get_tree` can succeed on `h` when the cache is `cache`: `h` is cached,
      or it is stored, its text parses and every subtree it lists can be
      resolved in turn. */
  ghost predicate TreeResolves(store: map<Hash, string>, rank: map<Hash, nat>, cache: map<Hash, Object>, h: Hash)
    decreases RankOf(rank, h)
  {
    || h in cache
    || (&& h in store
        && ParseEntries(SplitLines(store[h])).Ok?
        && forall c {:trigger c in SubtreesOf(ParseEntries(SplitLines(store[h])).value)} ::
             c in SubtreesOf(ParseEntries(SplitLines(store[h])).value) ==>
               RankOf(rank, c) < RankOf(rank, h) && TreeResolves(store, rank, cache, c))
  }

  /** The hashes a descent from `h` along `tree` lines can meet, `h` included. */
  ghost function TreesUnder(store: map<Hash, string>, rank: map<Hash, nat>, h: Hash): set<Hash>
    decreases RankOf(rank, h)
  {
    {h} + if h !in store then {} else
      set c, x | c in SubtreeRefs(store[h]) && RankOf(rank, c) < RankOf(rank, h) && x in TreesUnder(store, rank, c) :: x
  }

  /** Every object `cache'` has beyond `cache` is a tree met below `within`,
      ranked at most `bound`, that resolves from `cache` alone. */
  ghost predicate NewTrees(store: map<Hash, string>, rank: map<Hash, nat>, cache: map<Hash, Object>,
                           cache': map<Hash, Object>, bound: nat, within: set<Hash>)
  {
    forall h {:trigger h in cache'} :: h in cache' && h !in cache ==>
      && cache'[h].TreeObject? && RankOf(rank, h) <= bound && h in within
      && TreeResolves(store, rank, cache, h)
  }

  /** A tree that resolves keeps resolving while the cache grows. */
  lemma ResolvesGrow(store: map<Hash, string>, rank: map<Hash, nat>, cache: map<Hash, Object>,
                     cache': map<Hash, Object>, h: Hash)
    requires Grew(cache, cache') && TreeResolves(store, rank, cache, h)
    ensures TreeResolves(store, rank, cache', h)
    decreases RankOf(rank, h)
  {
    if h !in cache {
      var es := ParseEntries(SplitLines(store[h])).value;
      forall c | c in SubtreesOf(es) ensures TreeResolves(store, rank, cache', c) {
        ResolvesGrow(store, rank, cache, cache', c);
      }
    }
  }

  /** A tree that resolves from a grown cache resolves from the old one, when
      everything added resolves from the old one. */
  lemma ResolvesShrink(store: map<Hash, string>, rank: map<Hash, nat>, cache: map<Hash, Object>,
                       cache': map<Hash, Object>, bound: nat, within: set<Hash>, h: Hash)
    requires NewTrees(store, rank, cache, cache', bound, within) && TreeResolves(store, rank, cache', h)
    ensures TreeResolves(store, rank, cache, h)
    decreases RankOf(rank, h)
  {
    if h !in cache' {
      var es := ParseEntries(SplitLines(store[h])).value;
      forall c | c in SubtreesOf(es) ensures TreeResolves(store, rank, cache, c) {
        ResolvesShrink(store, rank, cache, cache', bound, within, c);
      }
    }
  }

  /** What a subtree can reach, its parent can reach. */
  lemma TreesUnderStep(store: map<Hash, string>, rank: map<Hash, nat>, h: Hash, c: Hash)
    requires TreeRanked(store, rank) && h in store && c in SubtreeRefs(store[h])
    ensures TreesUnder(store, rank, c) <= TreesUnder(store, rank, h)
  {
    forall x | x in TreesUnder(store, rank, c) ensures x in TreesUnder(store, rank, h) {
      assert RankOf(rank, c) < RankOf(rank, h);
    }
  }

  /** Caching a tree whose subtrees and blobs are already there keeps the cache resolved. */
  lemma ResolvedAdd(cache: map<Hash, Object>, blobs: map<Hash, Blob>, hash: Hash, tree: Tree)
    requires Resolved(cache, blobs)
    requires forall c {:trigger c in tree.trees} :: c in tree.trees ==> c in cache
    requires forall b {:trigger b in tree.blobs} :: b in tree.blobs ==> b in blobs
    ensures Resolved(cache[hash := TreeObject(tree)], blobs)
  {
    var cache' := cache[hash := TreeObject(tree)];
    forall h | h in cache' && cache'[h].TreeObject?
      ensures forall c :: c in cache'[h].tree.trees ==> c in cache'
    {
      if h != hash {
        assert cache'[h] == cache[h];
      }
    }
  }

  /** One index after the values of a fresh key are added: the key holds their
      deduplicated list, and every other key keeps its values; no key is left
      without values. */
  lemma IndexAddOne(m: map<Hash, seq<Hash>>, k: Hash, vs: seq<Hash>)
    requires NonEmptyValues(m) && k !in m
    ensures NonEmptyValues(InsertAll(m, k, vs))
    ensures forall h :: Get(InsertAll(m, k, vs), h) == if h == k then Dedup(vs) else Get(m, h)
    ensures forall h :: h in InsertAll(m, k, vs) ==> h in m || h == k
  {
    InsertAllFresh(m, k, vs);
    var m' := InsertAll(m, k, vs);
    DedupSpec(vs);
    if vs != [] {
      assert vs[0] in Dedup(vs);
    }
    forall h | h in m' ensures m'[h] != [] {
      if h == k {
        assert m'[h] == Get(m', k);
      } else {
        assert m'[h] == m[h];
      }
    }
  }

  lemma IndexKeysAdd(cache: map<Hash, Object>, index: map<Hash, seq<Hash>>, hash: Hash, tree: Tree, vs: seq<Hash>)
    requires IndexKeys(cache, index) && hash !in cache
    ensures IndexKeys(cache[hash := TreeObject(tree)], InsertAll(index, hash, vs))
  {
    IndexAddOne(index, hash, vs);
  }

  lemma IndexValuesAdd(cache: map<Hash, Object>, trees: map<Hash, seq<Hash>>, blobs: map<Hash, seq<Hash>>,
                       hash: Hash, tree: Tree)
    requires IndexKeys(cache, trees) && IndexKeys(cache, blobs) && IndexValues(cache, trees, blobs)
    requires hash !in cache
    ensures IndexValues(cache[hash := TreeObject(tree)],
                        InsertAll(trees, hash, tree.trees), InsertAll(blobs, hash, tree.blobs))
  {
    IndexAddOne(trees, hash, tree.trees);
    IndexAddOne(blobs, hash, tree.blobs);
    var cache' := cache[hash := TreeObject(tree)];
    forall h | h in cache' && cache'[h].TreeObject?
      ensures Get(InsertAll(trees, hash, tree.trees), h) == Dedup(cache'[h].tree.trees)
      ensures Get(InsertAll(blobs, hash, tree.blobs), h) == Dedup(cache'[h].tree.blobs)
    {
      if h != hash {
        assert cache'[h] == cache[h];
      }
    }
  }

  /** Adding a new tree's subtrees and blobs to the indices, one by one, and
      caching the tree keeps the indices exact. */
  lemma IndexedAdd(cache: map<Hash, Object>, trees: map<Hash, seq<Hash>>, blobs: map<Hash, seq<Hash>>,
                   hash: Hash, tree: Tree)
    requires Indexed(cache, trees, blobs) && hash !in cache
    ensures Indexed(cache[hash := TreeObject(tree)],
                    InsertAll(trees, hash, tree.trees), InsertAll(blobs, hash, tree.blobs))
  {
    IndexKeysAdd(cache, trees, hash, tree, tree.trees);
    IndexKeysAdd(cache, blobs, hash, tree, tree.blobs);
    IndexValuesAdd(cache, trees, blobs, hash, tree);
  }

  /** Caching a freshly parsed tree whose subtrees and blobs are already there,
      with its subtrees and blobs added to the indices, keeps the tree state. */
  lemma AddTree(store: map<Hash, string>, rank: map<Hash, nat>, cache: map<Hash, Object>,
                trees: map<Hash, seq<Hash>>, blobsIndex: map<Hash, seq<Hash>>, blobs: map<Hash, Blob>,
                hash: Hash, tree: Tree)
    requires TreeState(store, rank, cache, trees, blobsIndex, blobs)
    requires hash !in cache && hash in store
    requires ParseEntries(SplitLines(store[hash])).Ok?
    requires tree == TreeOf(hash, tree.name, ParseEntries(SplitLines(store[hash])).value)
    requires forall c {:trigger c in tree.trees} :: c in tree.trees ==> c in cache
    requires forall b {:trigger b in tree.blobs} :: b in tree.blobs ==> b in blobs
    ensures TreeState(store, rank, cache[hash := TreeObject(tree)],
                      InsertAll(trees, hash, tree.trees), InsertAll(blobsIndex, hash, tree.blobs), blobs)
  {
    ResolvedAdd(cache, blobs, hash, tree);
    IndexedAdd(cache, trees, blobsIndex, hash, tree);
    assert Sound(store, hash, TreeObject(tree));
  }

  /** Recording a blob under its hash keeps the tree state, keeps every blob
      recorded so far and records the new one. */
  lemma AddBlob(store: map<Hash, string>, rank: map<Hash, nat>, cache: map<Hash, Object>,
                trees: map<Hash, seq<Hash>>, blobsIndex: map<Hash, seq<Hash>>, blobs: map<Hash, Blob>,
                blobHashes: seq<Hash>, b: Hash, name: string)
    requires TreeState(store, rank, cache, trees, blobsIndex, blobs)
    requires forall x {:trigger x in blobHashes} :: x in blobHashes ==> x in blobs
    ensures TreeState(store, rank, cache, trees, blobsIndex, blobs[b := Blob(b, name)])
    ensures blobs.Keys <= blobs[b := Blob(b, name)].Keys
    ensures forall x {:trigger x in blobHashes + [b]} :: x in blobHashes + [b] ==> x in blobs[b := Blob(b, name)]
  {
  }

  /** Resolving a subtree that a `tree` line of the tree being parsed names:
      that tree stays uncached, every object added is a tree below it, and the
      subtrees met so far, now with the new one, are cached. */
  lemma SubtreeAdded(store: map<Hash, string>, rank: map<Hash, nat>, cache: map<Hash, Object>,
                     cache': map<Hash, Object>, hash: Hash, child: Hash, trees: seq<Hash>)
    requires TreeRanked(store, rank) && hash in store && child in SubtreeRefs(store[hash])
    requires Grew(cache, cache') && NewTrees(store, rank, cache, cache', RankOf(rank, child), TreesUnder(store, rank, child))
    requires hash !in cache && child in cache'
    requires forall c {:trigger c in trees} :: c in trees ==> c in cache
    ensures RankOf(rank, child) < RankOf(rank, hash)
    ensures hash !in cache' && NewTrees(store, rank, cache, cache', RankOf(rank, hash), TreesUnder(store, rank, hash))
    ensures forall c {:trigger c in trees + [child]} :: c in trees + [child] ==> c in cache'
  {
    TreesUnderStep(store, rank, hash, child);
    forall c | c in trees + [child] ensures c in cache' {
      if c in trees {
        assert c in cache;
      }
    }
  }

  /** Two rounds that each add only resolving trees of a bounded rank below
      `within` add only such trees. */
  lemma NewTreesTrans(store: map<Hash, string>, rank: map<Hash, nat>, cache0: map<Hash, Object>,
                      cache1: map<Hash, Object>, cache2: map<Hash, Object>, bound: nat, within: set<Hash>)
    requires Grew(cache0, cache1) && Grew(cache1, cache2)
    requires NewTrees(store, rank, cache0, cache1, bound, within)
    requires NewTrees(store, rank, cache1, cache2, bound, within)
    ensures Grew(cache0, cache2) && NewTrees(store, rank, cache0, cache2, bound, within)
  {
    forall h | h in cache2 && h !in cache0
      ensures cache2[h].TreeObject? && RankOf(rank, h) <= bound && h in within
      ensures TreeResolves(store, rank, cache0, h)
    {
      if h in cache1 {
        assert cache2[h] == cache1[h];
      } else {
        ResolvesShrink(store, rank, cache0, cache1, bound, within, h);
      }
    }
  }

  /** Caching the tree being parsed, once it resolves from the cache the
      parse started with, adds one more such tree. */
  lemma TreeCached(store: map<Hash, string>, rank: map<Hash, nat>, cache0: map<Hash, Object>,
                   cache1: map<Hash, Object>, hash: Hash, tree: Tree)
    requires Grew(cache0, cache1) && hash !in cache1
    requires NewTrees(store, rank, cache0, cache1, RankOf(rank, hash), TreesUnder(store, rank, hash))
    requires TreeResolves(store, rank, cache0, hash)
    ensures Grew(cache0, cache1[hash := TreeObject(tree)])
    ensures NewTrees(store, rank, cache0, cache1[hash := TreeObject(tree)], RankOf(rank, hash), TreesUnder(store, rank, hash))
  {
    assert hash in TreesUnder(store, rank, hash);
  }


  /** The outcome `r` of the loop body of `parse_tree` for one line, once
      the cache stood at `cache`: what the body promises about it. */
  ghost predicate LineOutcome(store: map<Hash, string>, rank: map<Hash, nat>, cache: map<Hash, Object>,
                              hash: Hash, line: string, trees: seq<Hash>, blobHashes: seq<Hash>,
                              r: Result<(seq<Hash>, seq<Hash>), Error>)
  {
    && (Malformed(line) ==> r == Err(MalformedTreeEntry(line)))
    && (line == "" ==> r == Ok((trees, blobHashes)))
    && (IsEntryLine(line, "tree") ==>
          && (r.Ok? <==> TreeResolves(store, rank, cache, Tokens(line)[2]))
          && (r.Ok? ==> r.value == (trees + [Tokens(line)[2]], blobHashes))
          && RankOf(rank, Tokens(line)[2]) < RankOf(rank, hash))
    && (IsEntryLine(line, "blob") ==> r == Ok((trees, blobHashes + [Tokens(line)[2]])))
    && (line != "" && |Tokens(line)| == 4 && Tokens(line)[1] != "tree" && Tokens(line)[1] != "blob" ==>
          r == Ok((trees, blobHashes)))
  }

  /** A line that fails makes the whole tree fail to resolve from the cache
      the parse started with. */
  lemma LineFailure(store: map<Hash, string>, rank: map<Hash, nat>, cache0: map<Hash, Object>,
                    cache1: map<Hash, Object>, hash: Hash, lines: seq<string>, i: nat,
                    trees: seq<Hash>, blobHashes: seq<Hash>, r: Result<(seq<Hash>, seq<Hash>), Error>)
    requires hash in store && hash !in cache0 && lines == SplitLines(store[hash]) && i < |lines|
    requires Grew(cache0, cache1) && ParseEntries(lines[..i]).Ok?
    requires LineOutcome(store, rank, cache1, hash, lines[i], trees, blobHashes, r) && r.Err?
    ensures !TreeResolves(store, rank, cache0, hash)
  {
    ParseEntriesStep(lines, i);
    if !Malformed(lines[i]) && ParseEntries(lines).Ok? {
      var child := Tokens(lines[i])[2];
      SubtreesOfPrefix(lines, i + 1);
      assert child in SubtreesOf(ParseEntries(lines).value);
      if TreeResolves(store, rank, cache0, child) {
        ResolvesGrow(store, rank, cache0, cache1, child);
      }
    }
  }

  /** A tree whose lines all parse, and whose subtrees all resolve, resolves. */
  lemma TreeParsed(store: map<Hash, string>, rank: map<Hash, nat>, cache: map<Hash, Object>,
                   hash: Hash, lines: seq<string>, trees: seq<Hash>)
    requires hash in store && lines == SplitLines(store[hash])
    requires ParseEntries(lines[..|lines|]).Ok? && trees == SubtreesOf(ParseEntries(lines[..|lines|]).value)
    requires forall c {:trigger c in trees} :: c in trees ==>
               RankOf(rank, c) < RankOf(rank, hash) && TreeResolves(store, rank, cache, c)
    ensures TreeResolves(store, rank, cache, hash)
  {
    assert lines[..|lines|] == lines;
  }

  /** What a line that parses keeps, from the parse's start (0) over the
      line's start (1) to its end (2): the hashes gathered are those of the
      entries parsed so far, the trees cached are below `hash`, and the
      subtrees met all resolve from the cache the parse started with. */
  lemma LineTaken(store: map<Hash, string>, rank: map<Hash, nat>,
                  cache0: map<Hash, Object>, cache1: map<Hash, Object>, cache2: map<Hash, Object>,
                  hash: Hash, lines: seq<string>, i: nat, trees: seq<Hash>, blobHashes: seq<Hash>,
                  r: Result<(seq<Hash>, seq<Hash>), Error>)
    requires hash in store && lines == SplitLines(store[hash]) && i < |lines|
    requires ParseEntries(lines[..i]).Ok?
    requires trees == SubtreesOf(ParseEntries(lines[..i]).value)
    requires blobHashes == BlobsOf(ParseEntries(lines[..i]).value)
    requires Grew(cache0, cache1) && Grew(cache1, cache2)
    requires NewTrees(store, rank, cache0, cache1, RankOf(rank, hash), TreesUnder(store, rank, hash))
    requires NewTrees(store, rank, cache1, cache2, RankOf(rank, hash), TreesUnder(store, rank, hash))
    requires forall c {:trigger c in trees} :: c in trees ==>
               RankOf(rank, c) < RankOf(rank, hash) && TreeResolves(store, rank, cache0, c)
    requires LineOutcome(store, rank, cache1, hash, lines[i], trees, blobHashes, r) && r.Ok?
    ensures ParseEntries(lines[..i + 1]).Ok?
    ensures r.value.0 == SubtreesOf(ParseEntries(lines[..i + 1]).value)
    ensures r.value.1 == BlobsOf(ParseEntries(lines[..i + 1]).value)
    ensures Grew(cache0, cache2)
    ensures NewTrees(store, rank, cache0, cache2, RankOf(rank, hash), TreesUnder(store, rank, hash))
    ensures forall c {:trigger c in r.value.0} :: c in r.value.0 ==>
              RankOf(rank, c) < RankOf(rank, hash) && TreeResolves(store, rank, cache0, c)
  {
    var line := lines[i];
    var next := if line == "" then (trees, blobHashes)
                else if Tokens(line)[1] == "tree" then (trees + [Tokens(line)[2]], blobHashes)
                else if Tokens(line)[1] == "blob" then (trees, blobHashes + [Tokens(line)[2]])
                else (trees, blobHashes);
    assert r.value == next;
    LineParsed(lines, i, trees, blobHashes, next);
    NewTreesTrans(store, rank, cache0, cache1, cache2, RankOf(rank, hash), TreesUnder(store, rank, hash));
    SubtreesStillResolve(store, rank, cache0, cache1, hash, trees, next.0);
  }

  /** The subtrees met so far all resolve from the cache the parse started with. */
  lemma SubtreesStillResolve(store: map<Hash, string>, rank: map<Hash, nat>, cache0: map<Hash, Object>,
                             cache1: map<Hash, Object>, hash: Hash, trees: seq<Hash>, trees': seq<Hash>)
    requires NewTrees(store, rank, cache0, cache1, RankOf(rank, hash), TreesUnder(store, rank, hash))
    requires forall c {:trigger c in trees} :: c in trees ==>
               RankOf(rank, c) < RankOf(rank, hash) && TreeResolves(store, rank, cache0, c)
    requires || trees' == trees
             || (&& |trees'| == |trees| + 1 && trees'[..|trees|] == trees
                 && RankOf(rank, trees'[|trees|]) < RankOf(rank, hash)
                 && TreeResolves(store, rank, cache1, trees'[|trees|]))
    ensures forall c {:trigger c in trees'} :: c in trees' ==>
              RankOf(rank, c) < RankOf(rank, hash) && TreeResolves(store, rank, cache0, c)
  {
    if trees' != trees {
      var child := trees'[|trees|];
      ResolvesShrink(store, rank, cache0, cache1, RankOf(rank, hash), TreesUnder(store, rank, hash), child);
      assert trees' == trees + [child];
    }
  }

  /** A line that is not malformed extends the parsed entries, and with them
      the hashes of the `tree` and `blob` lines. */
  lemma LineParsed(lines: seq<string>, i: nat, trees: seq<Hash>, blobHashes: seq<Hash>,
                   next: (seq<Hash>, seq<Hash>))
    requires i < |lines| && !Malformed(lines[i]) && ParseEntries(lines[..i]).Ok?
    requires trees == SubtreesOf(ParseEntries(lines[..i]).value)
    requires blobHashes == BlobsOf(ParseEntries(lines[..i]).value)
    requires next == if lines[i] == "" then (trees, blobHashes)
                     else if Tokens(lines[i])[1] == "tree" then (trees + [Tokens(lines[i])[2]], blobHashes)
                     else if Tokens(lines[i])[1] == "blob" then (trees, blobHashes + [Tokens(lines[i])[2]])
                     else (trees, blobHashes)
    ensures ParseEntries(lines[..i + 1]).Ok?
    ensures next.0 == SubtreesOf(ParseEntries(lines[..i + 1]).value)
    ensures next.1 == BlobsOf(ParseEntries(lines[..i + 1]).value)
  {
    ParseEntriesStep(lines, i);
  }

  // ---------------------------------------------------------------------------
  // Commit resolution

  /** Caching a commit parsed from the store keeps the tree state (it adds no tree). */
  lemma AddCommit(store: map<Hash, string>, rank: map<Hash, nat>, cache: map<Hash, Object>,
                  trees: map<Hash, seq<Hash>>, blobsIndex: map<Hash, seq<Hash>>, blobs: map<Hash, Blob>,
                  hash: Hash)
    requires TreeState(store, rank, cache, trees, blobsIndex, blobs)
    requires hash !in cache && hash in store
    ensures TreeState(store, rank, cache[hash := CommitObject(CommitOf(hash, store[hash]))], trees, blobsIndex, blobs)
  {
    var cache' := cache[hash := CommitObject(CommitOf(hash, store[hash]))];
    assert Resolved(cache', blobs) by {
      forall h | h in cache' && cache'[h].TreeObject?
        ensures forall c :: c in cache'[h].tree.trees ==> c in cache'
      {
        assert cache'[h] == cache[h];
      }
    }
    assert IndexValues(cache', trees, blobsIndex) by {
      forall h | h in cache' && cache'[h].TreeObject?
        ensures Get(trees, h) == Dedup(cache'[h].tree.trees)
      {
        assert cache'[h] == cache[h];
      }
    }
  }

  /** Every cached commit has its tree recorded in `commitToTree`, that tree is
      the one its `tree` line names and it is cached; only commits are keys. */
  ghost predicate CommitsResolved(cache: map<Hash, Object>, commitToTree: map<Hash, Hash>)
  {
    && (forall c {:trigger c in commitToTree} :: c in commitToTree ==> c in cache && cache[c].CommitObject?)
    && (forall c :: c in cache && cache[c].CommitObject? ==>
          && c in commitToTree
          && cache[c].commit.tree == Some(commitToTree[c])
          && commitToTree[c] in cache)
  }

  /** `get_commit` can succeed on an uncached `h`: it is stored, its text has a
      `tree` line, and that tree resolves once the commit itself is cached. */
  ghost predicate CommitFetchable(store: map<Hash, string>, rank: map<Hash, nat>, cache: map<Hash, Object>, h: Hash)
  {
    && h in store
    && CommitOf(h, store[h]).tree.Some?
    && TreeResolves(store, rank, cache[h := CommitObject(CommitOf(h, store[h]))], CommitOf(h, store[h]).tree.value)
  }

  /** Whether `get_commit` can succeed on an uncached stored commit, once the
      commit itself is cached. */
  lemma FetchableWhen(store: map<Hash, string>, rank: map<Hash, nat>, cache: map<Hash, Object>,
                      cacheMid: map<Hash, Object>, h: Hash)
    requires h in store && cacheMid == cache[h := CommitObject(CommitOf(h, store[h]))]
    ensures CommitFetchable(store, rank, cache, h) <==>
              CommitOf(h, store[h]).tree.Some? && TreeResolves(store, rank, cacheMid, CommitOf(h, store[h]).tree.value)
  {
  }

  /** The trees a descent from the tree of stored commit `c` can meet. */
  ghost function CommitTrees(store: map<Hash, string>, rank: map<Hash, nat>, c: Hash): set<Hash>
  {
    if c in store && CommitOf(c, store[c]).tree.Some? then TreesUnder(store, rank, CommitOf(c, store[c]).tree.value)
    else {}
  }

  /** Recording the tree of a commit newly cached, once resolving that tree
      added only trees below it, keeps every cached commit resolved; the
      cache gained the commit and those trees only. */
  lemma ResolveCommit(store: map<Hash, string>, rank: map<Hash, nat>, cache: map<Hash, Object>,
                      cacheMid: map<Hash, Object>, cache': map<Hash, Object>, commitToTree: map<Hash, Hash>,
                      commit: Commit, bound: nat)
    requires CommitsResolved(cache, commitToTree) && commit.hash !in cache && commit.tree.Some?
    requires cacheMid == cache[commit.hash := CommitObject(commit)]
    requires Grew(cacheMid, cache')
    requires NewTrees(store, rank, cacheMid, cache', bound, TreesUnder(store, rank, commit.tree.value))
    requires commit.tree.value in cache'
    ensures CommitsResolved(cache', commitToTree[commit.hash := commit.tree.value])
    ensures Grew(cache, cache') && commit.hash in cache' && cache'[commit.hash] == CommitObject(commit)
    ensures forall x {:trigger x in cache'} :: x in cache' && x !in cache ==>
              x == commit.hash || x in TreesUnder(store, rank, commit.tree.value)
  {
    assert commit.hash in cacheMid && cacheMid[commit.hash] == CommitObject(commit);
    forall h | h in cache ensures h in cache' && cache'[h] == cache[h] {
      assert h in cacheMid;
    }
    forall c | c in cache' && cache'[c].CommitObject?
      ensures c in cacheMid && cache'[c] == cacheMid[c]
    {
    }
  }

  // ---------------------------------------------------------------------------
  // The ancestry walk

  /** Parent edges exist only for entered commits, and every key holds some parent. */
  ghost predicate ParentsKeyed(commitToParents: map<Hash, seq<Hash>>, visited: set<Hash>)
  {
    && NonEmptyValues(commitToParents)
    && (forall c {:trigger c in commitToParents} :: c in commitToParents ==> c in visited)
  }

  /** The walk is done with `c`: it is a cached commit, its parents have been
      entered and its parent edges are recorded, without duplicates, in order. */
  ghost predicate Walked(cache: map<Hash, Object>, visited: set<Hash>, commitToParents: map<Hash, seq<Hash>>, c: Hash)
  {
    && c in cache && cache[c].CommitObject?
    && (forall p {:trigger p in cache[c].commit.parents} :: p in cache[c].commit.parents ==> p in visited)
    && Get(commitToParents, c) == Dedup(cache[c].commit.parents)
  }

  /** Every entered commit the walk is not still working on is done. */
  ghost predicate WalkedExcept(cache: map<Hash, Object>, visited: set<Hash>, commitToParents: map<Hash, seq<Hash>>,
                               active: set<Hash>)
  {
    forall c {:trigger Walked(cache, visited, commitToParents, c)} ::
      c in visited && c !in active ==> Walked(cache, visited, commitToParents, c)
  }

  /** Walked commits stay walked while the cache only grows, more commits are
      entered (all of them still being worked on) and their parent lists stay. */
  lemma WalkedKept(cache: map<Hash, Object>, visited: set<Hash>, ctp: map<Hash, seq<Hash>>, active: set<Hash>,
                   cache': map<Hash, Object>, visited': set<Hash>, ctp': map<Hash, seq<Hash>>, active': set<Hash>)
    requires WalkedExcept(cache, visited, ctp, active)
    requires Grew(cache, cache') && visited <= visited' && active <= active'
    requires forall c :: c in visited' && c !in visited ==> c in active'
    requires forall c :: c in visited && c !in active' ==> Get(ctp', c) == Get(ctp, c)
    ensures WalkedExcept(cache', visited', ctp', active')
  {
    forall c | c in visited' && c !in active' ensures Walked(cache', visited', ctp', c) {
      assert Walked(cache, visited, ctp, c);
    }
  }

  /** Adding an edge from the entered commit `hash`, which is still being worked
      on, keeps parent edges keyed by entered commits and every other entered
      commit walked. */
  lemma EdgeAdded(cache: map<Hash, Object>, visited: set<Hash>, ctp: map<Hash, seq<Hash>>,
                  active: set<Hash>, hash: Hash, parent: Hash)
    requires ParentsKeyed(ctp, visited) && hash in visited && hash in active
    requires WalkedExcept(cache, visited, ctp, active)
    ensures ParentsKeyed(Insert(ctp, hash, parent), visited)
    ensures WalkedExcept(cache, visited, Insert(ctp, hash, parent), active)
  {
    InsertSpec(ctp, hash, parent);
    WalkedKept(cache, visited, ctp, active, cache, visited, Insert(ctp, hash, parent), active);
  }

  /** Adding the next value of `vs` under `k` extends the deduplicated prefix by one. */
  lemma DedupStep(m: map<Hash, seq<Hash>>, k: Hash, vs: seq<Hash>, i: nat)
    requires i < |vs| && Get(m, k) == Dedup(vs[..i])
    ensures Get(Insert(m, k, vs[i]), k) == Dedup(vs[..i + 1])
  {
    assert vs[..i + 1][..i] == vs[..i];
  }

  /** What one turn of the parent loop keeps, from the loop's start (0) over the
      turn's start (1) to its end (2): the cache and the entered commits grow,
      the parents entered so far stay entered, the deduplicated prefix of
      parents grows by one and the edges of the commits further up stay. */
  lemma TurnTaken(cache0: map<Hash, Object>, cache1: map<Hash, Object>, cache2: map<Hash, Object>,
                  visited0: set<Hash>, visited1: set<Hash>, visited2: set<Hash>,
                  ctp0: map<Hash, seq<Hash>>, ctp1: map<Hash, seq<Hash>>, ctp2: map<Hash, seq<Hash>>,
                  active: set<Hash>, hash: Hash, parents: seq<Hash>, i: nat)
    requires Grew(cache0, cache1) && Grew(cache1, cache2)
    requires visited0 <= visited1 <= visited2
    requires i < |parents| && parents[i] in visited2
    requires forall j :: 0 <= j < i ==> parents[j] in visited1
    requires Get(ctp1, hash) == Dedup(parents[..i])
    requires Get(ctp2, hash) == Get(Insert(ctp1, hash, parents[i]), hash)
    requires forall c {:trigger c in active} :: c in active ==> Get(ctp1, c) == Get(ctp0, c)
    requires forall c {:trigger c in active} :: c in active ==> Get(ctp2, c) == Get(ctp1, c)
    ensures Grew(cache0, cache2) && visited0 <= visited2
    ensures forall j :: 0 <= j < i + 1 ==> parents[j] in visited2
    ensures Get(ctp2, hash) == Dedup(parents[..i + 1])
    ensures forall c {:trigger c in active} :: c in active ==> Get(ctp2, c) == Get(ctp0, c)
  {
    DedupStep(ctp1, hash, parents, i);
  }

  /** The branch tips walked so far stay entered while more commits are entered. */
  lemma TipsEntered(branchList: seq<Branch>, i: nat, visited: set<Hash>, visited': set<Hash>)
    requires i < |branchList| && visited <= visited' && branchList[i].commit in visited'
    requires forall j :: 0 <= j < i ==> branchList[j].commit in visited
    ensures forall j :: 0 <= j < i + 1 ==> branchList[j].commit in visited'
  {
  }

  /** A commit walked to the end leaves the set of commits still being worked on. */
  lemma WalkedDone(cache: map<Hash, Object>, visited: set<Hash>, ctp: map<Hash, seq<Hash>>,
                   active: set<Hash>, hash: Hash, parents: seq<Hash>)
    requires WalkedExcept(cache, visited, ctp, active + {hash})
    requires hash in cache && cache[hash].CommitObject? && cache[hash].commit.parents == parents
    requires forall j :: 0 <= j < |parents| ==> parents[j] in visited
    requires Get(ctp, hash) == Dedup(parents)
    ensures WalkedExcept(cache, visited, ctp, active)
  {
    assert forall p :: p in parents ==> p in visited;
    assert Walked(cache, visited, ctp, hash);
  }

  /** A set of entered commits in which every commit is walked is closed under
      the parents the store records. */
  lemma WalkedClosed(store: map<Hash, string>, cache: map<Hash, Object>, visited: set<Hash>,
                     ctp: map<Hash, seq<Hash>>)
    requires CacheSound(store, cache) && WalkedExcept(cache, visited, ctp, {})
    ensures ClosedUnderParents(store, visited)
  {
    forall c, p | c in visited && p in StoreParents(store, c) ensures p in visited {
      assert Walked(cache, visited, ctp, c) && Sound(store, c, cache[c]);
    }
  }

  /** The tree indices hold what the stored text of each cached tree lists:
      its `tree` and its `blob` hashes, each once, in order of first occurrence. */
  lemma TreeIndexFromStore(store: map<Hash, string>, rank: map<Hash, nat>, cache: map<Hash, Object>,
                           trees: map<Hash, seq<Hash>>, blobsIndex: map<Hash, seq<Hash>>, blobs: map<Hash, Blob>,
                           h: Hash)
    requires TreeState(store, rank, cache, trees, blobsIndex, blobs)
    requires h in cache && cache[h].TreeObject?
    ensures h in store && ParseEntries(SplitLines(store[h])).Ok?
    ensures Get(trees, h) == Dedup(SubtreesOf(ParseEntries(SplitLines(store[h])).value))
    ensures Get(blobsIndex, h) == Dedup(BlobsOf(ParseEntries(SplitLines(store[h])).value))
  {
    assert Sound(store, h, cache[h]);
  }

  /** The tree recorded for a cached commit is the one its last `tree` line names. */
  lemma CommitTreeFromStore(store: map<Hash, string>, cache: map<Hash, Object>, commitToTree: map<Hash, Hash>,
                            c: Hash)
    requires CacheSound(store, cache) && CommitsResolved(cache, commitToTree)
    requires c in cache && cache[c].CommitObject?
    ensures c in store && c in commitToTree
    ensures TreeField(SplitLines(store[c])) == Some(commitToTree[c])
  {
    assert Sound(store, c, cache[c]);
  }

  /** Once the walk is over, the parent edges of each entered commit are the
      parents its stored text lists, each once, in order. */
  lemma ParentIndexFromStore(store: map<Hash, string>, cache: map<Hash, Object>, visited: set<Hash>,
                             ctp: map<Hash, seq<Hash>>, c: Hash)
    requires CacheSound(store, cache) && WalkedExcept(cache, visited, ctp, {}) && c in visited
    ensures c in store && Get(ctp, c) == Dedup(StoreParents(store, c))
  {
    assert Walked(cache, visited, ctp, c);
    assert Sound(store, c, cache[c]);
  }

  /** Growing twice is growing, for the cache and for the entered commits. */
  lemma GrewTrans(cache0: map<Hash, Object>, cache1: map<Hash, Object>, cache2: map<Hash, Object>,
                  visited0: set<Hash>, visited1: set<Hash>, visited2: set<Hash>)
    requires Grew(cache0, cache1) && Grew(cache1, cache2)
    requires visited0 <= visited1 <= visited2
    ensures Grew(cache0, cache2) && visited0 <= visited2
  {
  }

  // ---------------------------------------------------------------------------
  // What the walk can reach, and when it succeeds

  /** The walk can take commit `c` with cache `cache`: `c` is cached as a
      commit, or `get_commit` can fetch it and its text is not one a tree could
      be parsed from (a real commit's two-field `tree` line never is), so it
      cannot be cached as a tree on the way. */
  ghost predicate CommitResolves(store: map<Hash, string>, rank: map<Hash, nat>, cache: map<Hash, Object>, c: Hash)
  {
    if c in cache then cache[c].CommitObject?
    else CommitFetchable(store, rank, cache, c) && ParseEntries(SplitLines(store[c])).Err?
  }

  /** The walk from `tip` can take every commit it can reach. */
  ghost predicate HistoryResolves(store: map<Hash, string>, rank: map<Hash, nat>, cache: map<Hash, Object>, tip: Hash)
  {
    forall c {:trigger IsAncestor(store, tip, c)} :: IsAncestor(store, tip, c) ==> CommitResolves(store, rank, cache, c)
  }

  /** The commits entered between `visited` and `visited'` are ancestors of `a`. */
  ghost predicate EnteredFrom(store: map<Hash, string>, visited: set<Hash>, visited': set<Hash>, a: Hash)
  {
    forall c {:trigger c in visited'} :: c in visited' && c !in visited ==> IsAncestor(store, a, c)
  }

  /** What the walk added to the cache between two states: commits it entered
      in between, and trees below the tree of such a commit. */
  ghost predicate CacheFromWalk(store: map<Hash, string>, rank: map<Hash, nat>, cache: map<Hash, Object>,
                                cache': map<Hash, Object>, visited: set<Hash>, visited': set<Hash>)
  {
    forall x {:trigger x in cache'} :: x in cache' && x !in cache ==>
      || (x in visited' && x !in visited)
      || exists c {:trigger x in CommitTrees(store, rank, c)} ::
           c in visited' && c !in visited && x in CommitTrees(store, rank, c)
  }

  /** A commit the walk can take stays so while the cache grows with objects
      that agree with the store. */
  lemma CommitResolvesGrow(store: map<Hash, string>, rank: map<Hash, nat>, cache: map<Hash, Object>,
                           cache': map<Hash, Object>, c: Hash)
    requires Grew(cache, cache') && CacheSound(store, cache') && CommitResolves(store, rank, cache, c)
    ensures CommitResolves(store, rank, cache', c)
  {
    if c !in cache {
      if c in cache' {
        assert Sound(store, c, cache'[c]);
      } else {
        var obj := CommitObject(CommitOf(c, store[c]));
        var t := CommitOf(c, store[c]).tree.value;
        assert Grew(cache[c := obj], cache'[c := obj]);
        ResolvesGrow(store, rank, cache[c := obj], cache'[c := obj], t);
      }
    }
  }

  /** A history the walk can take stays so while the cache grows. */
  lemma HistoryResolvesGrow(store: map<Hash, string>, rank: map<Hash, nat>, cache: map<Hash, Object>,
                            cache': map<Hash, Object>, tip: Hash)
    requires Grew(cache, cache') && CacheSound(store, cache') && HistoryResolves(store, rank, cache, tip)
    ensures HistoryResolves(store, rank, cache', tip)
  {
    forall c | IsAncestor(store, tip, c) ensures CommitResolves(store, rank, cache', c) {
      CommitResolvesGrow(store, rank, cache, cache', c);
    }
  }

  /** A commit of a history the walk can take can be taken, and so can the
      history of each of its parents. */
  lemma HistoryStep(store: map<Hash, string>, rank: map<Hash, nat>, cache: map<Hash, Object>, tip: Hash, p: Hash)
    requires HistoryResolves(store, rank, cache, tip)
    ensures CommitResolves(store, rank, cache, tip)
    ensures p in StoreParents(store, tip) ==> HistoryResolves(store, rank, cache, p)
  {
    AncestorSelf(store, tip);
    if p in StoreParents(store, tip) {
      forall c | IsAncestor(store, p, c) ensures CommitResolves(store, rank, cache, c) {
        AncestorStep(store, tip, p, c);
      }
    }
  }

  /** The history of the `i`-th parent of a cached commit the walk can take
      can be taken too. */
  lemma ParentHistory(store: map<Hash, string>, rank: map<Hash, nat>, cache: map<Hash, Object>,
                      hash: Hash, parents: seq<Hash>, i: nat)
    requires CacheSound(store, cache) && hash in cache && cache[hash].CommitObject?
    requires cache[hash].commit.parents == parents && i < |parents|
    ensures HistoryResolves(store, rank, cache, hash) ==> HistoryResolves(store, rank, cache, parents[i])
  {
    assert Sound(store, hash, cache[hash]);
    if HistoryResolves(store, rank, cache, hash) {
      HistoryStep(store, rank, cache, hash, parents[i]);
    }
  }

  /** Commits entered while walking a parent are ancestors of the child. */
  lemma AncestorsEntered(store: map<Hash, string>, hash: Hash, p: Hash,
                         visited0: set<Hash>, visited1: set<Hash>, visited2: set<Hash>)
    requires p in StoreParents(store, hash) && visited0 <= visited1
    requires EnteredFrom(store, visited0, visited1, hash) && EnteredFrom(store, visited1, visited2, p)
    ensures EnteredFrom(store, visited0, visited2, hash)
  {
    forall c | c in visited2 && c !in visited0 ensures IsAncestor(store, hash, c) {
      if c !in visited1 {
        AncestorStep(store, hash, p, c);
      }
    }
  }

  /** Two stretches of the walk together add only what the walk entered over both. */
  lemma CacheFromWalkTrans(store: map<Hash, string>, rank: map<Hash, nat>,
                           cache0: map<Hash, Object>, cache1: map<Hash, Object>, cache2: map<Hash, Object>,
                           visited0: set<Hash>, visited1: set<Hash>, visited2: set<Hash>)
    requires Grew(cache0, cache1) && visited0 <= visited1 <= visited2
    requires CacheFromWalk(store, rank, cache0, cache1, visited0, visited1)
    requires CacheFromWalk(store, rank, cache1, cache2, visited1, visited2)
    ensures CacheFromWalk(store, rank, cache0, cache2, visited0, visited2)
  {
    forall x | x in cache2 && x !in cache0
      ensures || (x in visited2 && x !in visited0)
              || exists c {:trigger x in CommitTrees(store, rank, c)} ::
                   c in visited2 && c !in visited0 && x in CommitTrees(store, rank, c)
    {
      if x in cache1 {
        assert x in cache1 && x !in cache0;
      } else {
        assert x in cache2 && x !in cache1;
      }
    }
  }

  /** Entering `hash` and fetching it, which cached at most `hash` and trees
      below its tree, is a stretch of the walk from `hash`. */
  lemma CommitEntered(store: map<Hash, string>, rank: map<Hash, nat>, cache: map<Hash, Object>,
                      cache': map<Hash, Object>, visited: set<Hash>, hash: Hash)
    requires hash !in visited
    requires forall x {:trigger x in cache'} :: x in cache' && x !in cache ==>
               x == hash || x in CommitTrees(store, rank, hash)
    ensures EnteredFrom(store, visited, visited + {hash}, hash)
    ensures CacheFromWalk(store, rank, cache, cache', visited, visited + {hash})
  {
    AncestorSelf(store, hash);
    forall x | x in cache' && x !in cache
      ensures || (x in visited + {hash} && x !in visited)
              || exists c {:trigger x in CommitTrees(store, rank, c)} ::
                   c in visited + {hash} && c !in visited && x in CommitTrees(store, rank, c)
    {
      if x != hash {
        assert x in CommitTrees(store, rank, hash);
      }
    }
  }

  /** Two stretches of the walk from `a` are one. */
  lemma EnteredTrans(store: map<Hash, string>, visited0: set<Hash>, visited1: set<Hash>, visited2: set<Hash>,
                     a: Hash)
    requires visited0 <= visited1
    requires EnteredFrom(store, visited0, visited1, a) && EnteredFrom(store, visited1, visited2, a)
    ensures EnteredFrom(store, visited0, visited2, a)
  {
    forall c | c in visited2 && c !in visited0 ensures IsAncestor(store, a, c) {
      if c in visited1 {
        assert c in visited1 && c !in visited0;
      } else {
        assert c in visited2 && c !in visited1;
      }
    }
  }

  /** What one turn of the parent loop of `hash`, which walked its `i`-th
      parent, keeps about the walk as a whole, from the loop's start (0) over
      the turn's start (1) to its end (2): a history it could take it still
      can, what it entered descends from `hash`, and what it cached came from
      commits it entered. */
  lemma WalkTurn(store: map<Hash, string>, rank: map<Hash, nat>,
                 cache0: map<Hash, Object>, cache1: map<Hash, Object>, cache2: map<Hash, Object>,
                 visited0: set<Hash>, visited1: set<Hash>, visited2: set<Hash>,
                 ctp0: map<Hash, seq<Hash>>, ctp1: map<Hash, seq<Hash>>, ctp2: map<Hash, seq<Hash>>,
                 blobs0: map<Hash, Blob>, blobs1: map<Hash, Blob>, blobs2: map<Hash, Blob>,
                 active: set<Hash>, hash: Hash, parents: seq<Hash>, i: nat)
    requires hash in cache0 && cache0[hash].CommitObject? && cache0[hash].commit.parents == parents && i < |parents|
    requires Grew(cache0, cache1) && Grew(cache1, cache2) && CacheSound(store, cache2)
    requires visited0 <= visited1 <= visited2 && parents[i] in visited2
    requires forall j :: 0 <= j < i ==> parents[j] in visited1
    requires Get(ctp1, hash) == Dedup(parents[..i])
    requires Get(ctp2, hash) == Get(Insert(ctp1, hash, parents[i]), hash)
    requires forall c {:trigger c in active} :: c in active ==> Get(ctp1, c) == Get(ctp0, c)
    requires forall c {:trigger c in active} :: c in active ==> Get(ctp2, c) == Get(ctp1, c)
    requires HistoryResolves(store, rank, cache0, hash) ==> HistoryResolves(store, rank, cache1, hash)
    requires EnteredFrom(store, visited0, visited1, hash) && EnteredFrom(store, visited1, visited2, parents[i])
    requires CacheFromWalk(store, rank, cache0, cache1, visited0, visited1)
    requires CacheFromWalk(store, rank, cache1, cache2, visited1, visited2)
    requires BlobsWithin(blobs0, blobs1, NewTreeBlobs(cache0, cache1))
    requires BlobsWithin(blobs1, blobs2, NewTreeBlobs(cache1, cache2))
    ensures Grew(cache0, cache2) && visited0 <= visited2
    ensures forall j :: 0 <= j < i + 1 ==> parents[j] in visited2
    ensures Get(ctp2, hash) == Dedup(parents[..i + 1])
    ensures forall c {:trigger c in active} :: c in active ==> Get(ctp2, c) == Get(ctp0, c)
    ensures HistoryResolves(store, rank, cache0, hash) ==> HistoryResolves(store, rank, cache2, hash)
    ensures EnteredFrom(store, visited0, visited2, hash)
    ensures CacheFromWalk(store, rank, cache0, cache2, visited0, visited2)
    ensures BlobsWithin(blobs0, blobs2, NewTreeBlobs(cache0, cache2))
  {
    assert Sound(store, hash, cache2[hash]);
    TurnTaken(cache0, cache1, cache2, visited0, visited1, visited2, ctp0, ctp1, ctp2, active, hash, parents, i);
    if HistoryResolves(store, rank, cache0, hash) {
      HistoryResolvesGrow(store, rank, cache1, cache2, hash);
    }
    AncestorsEntered(store, hash, parents[i], visited0, visited1, visited2);
    CacheFromWalkTrans(store, rank, cache0, cache1, cache2, visited0, visited1, visited2);
    BlobsGrew(cache0, cache1, cache2, blobs0, blobs1, blobs2);
  }

  /** The walk can take the history of each of the first `n` branch tips. */
  ghost predicate TipsResolve(store: map<Hash, string>, rank: map<Hash, nat>, cache: map<Hash, Object>,
                              branchList: seq<Branch>, n: nat)
  {
    forall j :: 0 <= j < n && j < |branchList| ==> HistoryResolves(store, rank, cache, branchList[j].commit)
  }

  /** Histories the walk can take stay so while the cache grows. */
  lemma TipsResolveGrow(store: map<Hash, string>, rank: map<Hash, nat>, cache: map<Hash, Object>,
                        cache': map<Hash, Object>, branchList: seq<Branch>)
    requires Grew(cache, cache') && CacheSound(store, cache')
    requires TipsResolve(store, rank, cache, branchList, |branchList|)
    ensures TipsResolve(store, rank, cache', branchList, |branchList|)
  {
    forall j | 0 <= j < |branchList| ensures HistoryResolves(store, rank, cache', branchList[j].commit) {
      HistoryResolvesGrow(store, rank, cache, cache', branchList[j].commit);
    }
  }

  /** The commits entered between `visited` and `visited'` are ancestors of
      one of the first `n` branch tips. */
  ghost predicate EnteredFromTips(store: map<Hash, string>, visited: set<Hash>, visited': set<Hash>,
                                  branchList: seq<Branch>, n: nat)
  {
    forall c {:trigger c in visited'} :: c in visited' && c !in visited ==>
      exists j :: 0 <= j < n && j < |branchList| && IsAncestor(store, branchList[j].commit, c)
  }

  /** Walking one more tip extends the commits entered from the tips. */
  lemma TipWalked(store: map<Hash, string>, visited0: set<Hash>, visited1: set<Hash>, visited2: set<Hash>,
                  branchList: seq<Branch>, i: nat)
    requires i < |branchList| && visited0 <= visited1
    requires EnteredFromTips(store, visited0, visited1, branchList, i)
    requires EnteredFrom(store, visited1, visited2, branchList[i].commit)
    ensures EnteredFromTips(store, visited0, visited2, branchList, i + 1)
  {
    forall c | c in visited2 && c !in visited0
      ensures exists j :: 0 <= j < i + 1 && j < |branchList| && IsAncestor(store, branchList[j].commit, c)
    {
      if c in visited1 {
        assert c in visited1 && c !in visited0;
      } else {
        assert c in visited2 && c !in visited1;
        assert IsAncestor(store, branchList[i].commit, c);
      }
    }
  }

  class GitRepo {
    /** The object store `git cat-file -p` reads: object name to printed text. */
    const store: map<Hash, string>
    /** A ranking of the store's trees that witnesses TreeRanked. */
    ghost const rank: map<Hash, nat>

    /** hash -> parsed commit or tree */
    var cache: map<Hash, Object>
    var branches: seq<Branch>
    var branchToCommit: map<string, Hash>
    var commitToParents: map<Hash, seq<Hash>>
    var commitToTree: map<Hash, Hash>
    var treeToTrees: map<Hash, seq<Hash>>
    var treeToBlobs: map<Hash, seq<Hash>>
    var blobs: map<Hash, Blob>
    /** The commits the ancestry walk has entered. */
    var visited: set<Hash>

    /** The state between two top-level operations: trees and commits are
        resolved and indexed, and every entered commit is walked. */
    ghost predicate Valid()
      reads this
    {
      && TreeState(store, rank, cache, treeToTrees, treeToBlobs, blobs)
      && BlobsListed(cache, blobs)
      && TreesNamed(store, cache, {})
      && CommitsResolved(cache, commitToTree)
      && ParentsKeyed(commitToParents, visited)
      && WalkedExcept(cache, visited, commitToParents, {})
    }

    constructor (store: map<Hash, string>, ghost rank: map<Hash, nat>)
      requires TreeRanked(store, rank)
      ensures this.store == store && this.rank == rank
      ensures Valid()
      ensures cache == map[] && branches == [] && branchToCommit == map[]
      ensures commitToParents == map[] && commitToTree == map[]
      ensures treeToTrees == map[] && treeToBlobs == map[] && blobs == map[]
      ensures visited == {}
    {
      this.store := store;
      this.rank := rank;
      cache := map[];
      branches := [];
      branchToCommit := map[];
      commitToParents := map[];
      commitToTree := map[];
      treeToTrees := map[];
      treeToBlobs := map[];
      blobs := map[];
      visited := {};
    }

    /** `git cat-file -p hash`, as a lookup in the object store. */
    function CatFile(hash: Hash): (r: Result<string, Error>)
      ensures r.Ok? <==> hash in store
      ensures r.Ok? ==> r.value == store[hash]
      ensures r.Err? ==> r.error == ObjectNotFound(hash)
    {
      if hash in store then Ok(store[hash]) else Err(ObjectNotFound(hash))
    }

    /** `add_to_multimap`: the dictionary with `value` added under `key` unless already there. */
    static method AddToMultimap(multimap: map<Hash, seq<Hash>>, key: Hash, value: Hash)
      returns (updated: map<Hash, seq<Hash>>)
      ensures updated == Insert(multimap, key, value)
    {
      updated := multimap;
      if key !in updated {
        updated := updated[key := []];
      }
      if value !in updated[key] {
        updated := updated[key := updated[key] + [value]];
      }
    }

    /** The loops of `get_tree` that add each child hash of a tree, in order,
        under the tree's hash. */
    static method AddEachToMultimap(multimap: map<Hash, seq<Hash>>, key: Hash, values: seq<Hash>)
      returns (updated: map<Hash, seq<Hash>>)
      ensures updated == InsertAll(multimap, key, values)
    {
      updated := multimap;
      for i := 0 to |values|
        invariant updated == InsertAll(multimap, key, values[..i])
      {
        updated := AddToMultimap(updated, key, values[i]);
        assert values[..i + 1][..i] == values[..i];
      }
      assert values[..|values|] == values;
    }

    /** `parse_commit`: keeps the last `tree` line's value and every `parent`
        line's value, in order, and ignores all other lines. */
    static method ParseCommit(hash: Hash, content: string) returns (c: Commit)
      ensures c == CommitOf(hash, content)
    {
      var lines := SplitLines(content);
      var tree: Option<Hash> := None;
      var parents: seq<Hash> := [];
      for i := 0 to |lines|
        invariant tree == TreeField(lines[..i])
        invariant parents == ParentFields(lines[..i])
      {
        var line := lines[i];
        assert lines[..i + 1][..i] == lines[..i];
        if line == "" {
          continue;
        }
        var parts := Tokens(line);
        if |parts| < 2 {
          continue;
        }
        if parts[0] == "tree" {
          tree := Some(parts[1]);
        } else if parts[0] == "parent" {
          parents := parents + [parts[1]];
        }
      }
      assert lines[..|lines|] == lines;
      c := Commit(hash, tree, parents);
    }

    /** `get_tree`: the cached object for `hash`, or else the tree parsed from
        the store (resolving its subtrees first) with its index entries added. */
    method GetTree(hash: Hash, name: string) returns (r: Result<Object, Error>)
      requires TreeState(store, rank, cache, treeToTrees, treeToBlobs, blobs)
      requires TreesNamed(store, cache, {})
      modifies this`cache, this`treeToTrees, this`treeToBlobs, this`blobs
      decreases RankOf(rank, hash), 4
      ensures r.Ok? <==> TreeResolves(store, rank, old(cache), hash)
      ensures r.Err? ==> TreeError(store, r.error)
      ensures hash in old(cache) ==> r == Ok(old(cache)[hash]) && unchanged(this)
      ensures hash !in old(cache) && hash !in store ==> r == Err(ObjectNotFound(hash))
      ensures r.Ok? ==> TreeState(store, rank, cache, treeToTrees, treeToBlobs, blobs)
      ensures r.Ok? ==> Grew(old(cache), cache) && old(blobs).Keys <= blobs.Keys
      ensures r.Ok? ==> NewTrees(store, rank, old(cache), cache, RankOf(rank, hash), TreesUnder(store, rank, hash))
      ensures r.Ok? ==> BlobsWithin(old(blobs), blobs, NewTreeBlobs(old(cache), cache))
      ensures r.Ok? ==> hash in cache && r.value == cache[hash]
      ensures r.Ok? ==> TreesNamed(store, cache, {hash})
      ensures r.Ok? && hash !in old(cache) ==>
                && hash in store
                && ParseEntries(SplitLines(store[hash])).Ok?
                && r.value == TreeObject(TreeOf(hash, name, ParseEntries(SplitLines(store[hash])).value))
    {
      if hash !in cache {
        var tree :- FetchTree(hash, name);
      }
      r := Ok(cache[hash]);
    }

    /** The branch of `get_tree` for a hash not yet cached: fetch and parse the
        tree, add its blobs and subtrees to the indices, and cache it. */
    method FetchTree(hash: Hash, name: string) returns (r: Result<Tree, Error>)
      requires TreeState(store, rank, cache, treeToTrees, treeToBlobs, blobs)
      requires hash !in cache
      requires TreesNamed(store, cache, {})
      modifies this`cache, this`treeToTrees, this`treeToBlobs, this`blobs
      decreases RankOf(rank, hash), 3
      ensures r.Ok? <==> TreeResolves(store, rank, old(cache), hash)
      ensures r.Err? ==> TreeError(store, r.error)
      ensures hash !in store ==> r == Err(ObjectNotFound(hash))
      ensures r.Ok? ==> TreeState(store, rank, cache, treeToTrees, treeToBlobs, blobs)
      ensures r.Ok? ==> Grew(old(cache), cache) && old(blobs).Keys <= blobs.Keys
      ensures r.Ok? ==> NewTrees(store, rank, old(cache), cache, RankOf(rank, hash), TreesUnder(store, rank, hash))
      ensures r.Ok? ==> BlobsWithin(old(blobs), blobs, NewTreeBlobs(old(cache), cache))
      ensures r.Ok? ==> TreesNamed(store, cache, {hash})
      ensures r.Ok? ==> && hash in store
                        && ParseEntries(SplitLines(store[hash])).Ok?
                        && r.value == TreeOf(hash, name, ParseEntries(SplitLines(store[hash])).value)
                        && hash in cache && cache[hash] == TreeObject(r.value)
    {
      var content :- CatFile(hash);
      var tree :- ParseTree(hash, name, content);
      TreeCached(store, rank, old(cache), cache, hash, tree);
      TreeBlobsCached(old(blobs), blobs, old(cache), cache, hash, tree);
      CacheTree(hash, tree);
      r := Ok(tree);
    }

    /** The end of that branch: the tree's blobs and subtrees are added to the
        indices, then the tree is cached. */
    method CacheTree(hash: Hash, tree: Tree)
      requires TreeState(store, rank, cache, treeToTrees, treeToBlobs, blobs)
      requires hash !in cache && hash in store
      requires ParseEntries(SplitLines(store[hash])).Ok?
      requires tree == TreeOf(hash, tree.name, ParseEntries(SplitLines(store[hash])).value)
      requires forall c {:trigger c in tree.trees} :: c in tree.trees ==> c in cache
      requires forall b {:trigger b in tree.blobs} :: b in tree.blobs ==> b in blobs
      modifies this`cache, this`treeToTrees, this`treeToBlobs
      ensures TreeState(store, rank, cache, treeToTrees, treeToBlobs, blobs)
      ensures cache == old(cache)[hash := TreeObject(tree)]
      ensures treeToTrees == InsertAll(old(treeToTrees), hash, tree.trees)
      ensures treeToBlobs == InsertAll(old(treeToBlobs), hash, tree.blobs)
    {
      treeToBlobs := AddEachToMultimap(treeToBlobs, hash, tree.blobs);
      treeToTrees := AddEachToMultimap(treeToTrees, hash, tree.trees);
      cache := cache[hash := TreeObject(tree)];
      AddTree(store, rank, old(cache), old(treeToTrees), old(treeToBlobs), blobs, hash, tree);
    }

    /** `parse_tree`: the tree record of `content`; every non-empty line must
        have four fields. Subtrees are resolved as their lines are met, and each
        blob line records the blob under its hash. */
    method ParseTree(hash: Hash, name: string, content: string) returns (r: Result<Tree, Error>)
      requires TreeState(store, rank, cache, treeToTrees, treeToBlobs, blobs)
      requires hash !in cache && hash in store && content == store[hash]
      requires TreesNamed(store, cache, {})
      modifies this`cache, this`treeToTrees, this`treeToBlobs, this`blobs
      decreases RankOf(rank, hash), 2
      ensures r.Ok? <==> TreeResolves(store, rank, old(cache), hash)
      ensures r.Err? ==> TreeError(store, r.error)
      ensures r.Ok? ==> ParseEntries(SplitLines(content)).Ok? &&
                        r.value == TreeOf(hash, name, ParseEntries(SplitLines(content)).value)
      ensures r.Ok? ==> TreeState(store, rank, cache, treeToTrees, treeToBlobs, blobs)
      ensures r.Ok? ==> TreesNamed(store, cache, {})
      ensures r.Ok? ==> Grew(old(cache), cache) && old(blobs).Keys <= blobs.Keys && hash !in cache
      ensures r.Ok? ==> NewTrees(store, rank, old(cache), cache, RankOf(rank, hash), TreesUnder(store, rank, hash))
      ensures r.Ok? ==> (forall c {:trigger c in r.value.trees} :: c in r.value.trees ==> c in cache) &&
                        (forall b {:trigger b in r.value.blobs} :: b in r.value.blobs ==> b in blobs)
      ensures r.Ok? ==> BlobsWithin(old(blobs), blobs, NewTreeBlobs(old(cache), cache) + (set b | b in r.value.blobs))
    {
      var lines := SplitLines(content);
      var trees: seq<Hash> := [];
      var blobHashes: seq<Hash> := [];
      for i := 0 to |lines|
        invariant ParseEntries(lines[..i]).Ok?
        invariant trees == SubtreesOf(ParseEntries(lines[..i]).value)
        invariant blobHashes == BlobsOf(ParseEntries(lines[..i]).value)
        invariant TreeState(store, rank, cache, treeToTrees, treeToBlobs, blobs)
        invariant TreesNamed(store, cache, {})
        invariant Grew(old(cache), cache) && old(blobs).Keys <= blobs.Keys && hash !in cache
        invariant NewTrees(store, rank, old(cache), cache, RankOf(rank, hash), TreesUnder(store, rank, hash))
        invariant forall c {:trigger c in trees} :: c in trees ==>
                    c in cache && RankOf(rank, c) < RankOf(rank, hash) && TreeResolves(store, rank, old(cache), c)
        invariant forall b {:trigger b in blobHashes} :: b in blobHashes ==> b in blobs
        invariant BlobsWithin(old(blobs), blobs, NewTreeBlobs(old(cache), cache) + (set b | b in blobHashes))
      {
        ghost var cache1, blobs1 := cache, blobs;
        var next := TakeTreeLine(hash, lines[i], trees, blobHashes);
        if next.Err? {
          LineFailure(store, rank, old(cache), cache1, hash, lines, i, trees, blobHashes, next);
          return Err(next.error);
        }
        LineTaken(store, rank, old(cache), cache1, cache, hash, lines, i, trees, blobHashes, next);
        BlobsTaken(store, rank, old(cache), cache1, cache, old(blobs), blobs1, blobs, hash, lines[i], trees, blobHashes, next);
        trees, blobHashes := next.value.0, next.value.1;
      }
      TreeParsed(store, rank, old(cache), hash, lines, trees);
      assert lines[..|lines|] == lines;
      r := Ok(Tree(hash, name, trees, blobHashes));
    }

    /** ParseTreeLine as the loop of ParseTree uses it: the outcome of the
        line and the state facts the loop carries, without the per-kind
        effects on the tables that the loop does not need. */
    method TakeTreeLine(hash: Hash, line: string, trees: seq<Hash>, blobHashes: seq<Hash>)
      returns (r: Result<(seq<Hash>, seq<Hash>), Error>)
      requires TreeState(store, rank, cache, treeToTrees, treeToBlobs, blobs)
      requires hash !in cache && hash in store && line in SplitLines(store[hash])
      requires forall c {:trigger c in trees} :: c in trees ==> c in cache
      requires forall b {:trigger b in blobHashes} :: b in blobHashes ==> b in blobs
      requires TreesNamed(store, cache, {})
      modifies this`cache, this`treeToTrees, this`treeToBlobs, this`blobs
      decreases RankOf(rank, hash), 1
      ensures LineOutcome(store, rank, old(cache), hash, line, trees, blobHashes, r)
      ensures r.Err? ==> TreeError(store, r.error)
      ensures r.Ok? ==> TreeState(store, rank, cache, treeToTrees, treeToBlobs, blobs)
      ensures r.Ok? ==> TreesNamed(store, cache, {})
      ensures r.Ok? ==> Grew(old(cache), cache) && old(blobs).Keys <= blobs.Keys && hash !in cache
      ensures r.Ok? ==> NewTrees(store, rank, old(cache), cache, RankOf(rank, hash), TreesUnder(store, rank, hash))
      ensures r.Ok? ==> BlobsWithin(old(blobs), blobs, NewTreeBlobs(old(cache), cache) + BlobOfLine(line))
      ensures r.Ok? ==> (forall c {:trigger c in r.value.0} :: c in r.value.0 ==> c in cache) &&
                        (forall b {:trigger b in r.value.1} :: b in r.value.1 ==> b in blobs)
    {
      r := ParseTreeLine(hash, line, trees, blobHashes);
    }

    /** The body of the loop of `parse_tree`, for one line of the text of
        `hash`: an empty line is skipped, a line without four fields fails, a
        `tree` line resolves the subtree it names and adds its hash, a `blob`
        line records the blob under its hash and adds the hash, and a line of
        any other type adds nothing. */
    method ParseTreeLine(hash: Hash, line: string, trees: seq<Hash>, blobHashes: seq<Hash>)
      returns (r: Result<(seq<Hash>, seq<Hash>), Error>)
      requires TreeState(store, rank, cache, treeToTrees, treeToBlobs, blobs)
      requires hash !in cache && hash in store && line in SplitLines(store[hash])
      requires forall c {:trigger c in trees} :: c in trees ==> c in cache
      requires forall b {:trigger b in blobHashes} :: b in blobHashes ==> b in blobs
      requires TreesNamed(store, cache, {})
      modifies this`cache, this`treeToTrees, this`treeToBlobs, this`blobs
      decreases RankOf(rank, hash), 0
      ensures LineOutcome(store, rank, old(cache), hash, line, trees, blobHashes, r)
      ensures line == "" ==> unchanged(this)
      ensures IsEntryLine(line, "blob") ==>
                && blobs == old(blobs)[Tokens(line)[2] := Blob(Tokens(line)[2], Tokens(line)[3])]
                && cache == old(cache) && treeToTrees == old(treeToTrees) && treeToBlobs == old(treeToBlobs)
      ensures line != "" && |Tokens(line)| == 4 && Tokens(line)[1] != "tree" && Tokens(line)[1] != "blob" ==>
                unchanged(this)
      ensures IsEntryLine(line, "tree") && r.Ok? && Tokens(line)[2] !in old(cache) ==>
                && Tokens(line)[2] in store && Tokens(line)[2] in cache
                && ParseEntries(SplitLines(store[Tokens(line)[2]])).Ok?
                && cache[Tokens(line)[2]] ==
                     TreeObject(TreeOf(Tokens(line)[2], Tokens(line)[3], ParseEntries(SplitLines(store[Tokens(line)[2]])).value))
      ensures IsEntryLine(line, "tree") && Tokens(line)[2] in old(cache) ==> unchanged(this)
      ensures IsEntryLine(line, "tree") && r.Ok? ==>
                NewTrees(store, rank, old(cache), cache, RankOf(rank, Tokens(line)[2]), TreesUnder(store, rank, Tokens(line)[2]))
      ensures r.Err? ==> TreeError(store, r.error)
      ensures r.Ok? ==> TreeState(store, rank, cache, treeToTrees, treeToBlobs, blobs)
      ensures r.Ok? ==> TreesNamed(store, cache, {})
      ensures r.Ok? ==> Grew(old(cache), cache) && old(blobs).Keys <= blobs.Keys && hash !in cache
      ensures r.Ok? ==> NewTrees(store, rank, old(cache), cache, RankOf(rank, hash), TreesUnder(store, rank, hash))
      ensures r.Ok? ==> BlobsWithin(old(blobs), blobs, NewTreeBlobs(old(cache), cache) + BlobOfLine(line))
      ensures r.Ok? ==> (forall c {:trigger c in r.value.0} :: c in r.value.0 ==> c in cache) &&
                        (forall b {:trigger b in r.value.1} :: b in r.value.1 ==> b in blobs)
    {
      if line == "" {
        return Ok((trees, blobHashes));
      }
      var parts := Tokens(line);
      if |parts| != 4 {
        return Err(MalformedTreeEntry(line));
      }
      var kind, childHash, childName := parts[1], parts[2], parts[3];
      if kind == "tree" {
        assert childHash in SubtreeRefs(store[hash]);
        var subtree := GetTree(childHash, childName);
        if subtree.Err? {
          return Err(subtree.error);
        }
        SubtreeAdded(store, rank, old(cache), cache, hash, childHash, trees);
        r := Ok((trees + [childHash], blobHashes));
      } else if kind == "blob" {
        AddBlob(store, rank, cache, treeToTrees, treeToBlobs, blobs, blobHashes, childHash, childName);
        blobs := blobs[childHash := Blob(childHash, childName)];
        r := Ok((trees, blobHashes + [childHash]));
      } else {
        r := Ok((trees, blobHashes));
      }
    }

    /** `get_commit`: the cached object for `hash`, or else the commit parsed
        from the store, cached before its tree is resolved and recorded. */
    method GetCommit(hash: Hash) returns (r: Result<Object, Error>)
      requires TreeState(store, rank, cache, treeToTrees, treeToBlobs, blobs)
      requires CommitsResolved(cache, commitToTree)
      requires TreesNamed(store, cache, {})
      modifies this`cache, this`commitToTree, this`treeToTrees, this`treeToBlobs, this`blobs
      ensures r.Ok? <==> hash in old(cache) || CommitFetchable(store, rank, old(cache), hash)
      ensures r.Err? ==> Justified(store, cache, r.error)
      ensures hash in old(cache) ==> r == Ok(old(cache)[hash]) && unchanged(this)
      ensures hash !in old(cache) && hash !in store ==> r == Err(ObjectNotFound(hash))
      ensures hash !in old(cache) && hash in store && CommitOf(hash, store[hash]).tree == None ==>
                r == Err(ObjectNotFound(NoTreeName))
      ensures r.Ok? ==> TreeState(store, rank, cache, treeToTrees, treeToBlobs, blobs)
      ensures r.Ok? ==> TreesNamed(store, cache, {})
      ensures r.Ok? ==> CommitsResolved(cache, commitToTree) && Grew(old(cache), cache)
      ensures r.Ok? ==> BlobsWithin(old(blobs), blobs, NewTreeBlobs(old(cache), cache))
      ensures r.Ok? ==> hash in cache && r.value == cache[hash]
      ensures r.Ok? && hash !in old(cache) ==>
                && hash in store
                && r.value == CommitObject(CommitOf(hash, store[hash]))
                && r.value.commit.tree.Some?
                && commitToTree == old(commitToTree)[hash := r.value.commit.tree.value]
      ensures r.Ok? && hash !in old(cache) && r.value.commit.tree.value !in old(cache) && r.value.commit.tree.value != hash ==>
                RootCached(store, cache, r.value.commit.tree.value)
      ensures r.Ok? ==> forall x {:trigger x in cache} :: x in cache && x !in old(cache) ==>
                          x == hash || x in CommitTrees(store, rank, hash)
    {
      if hash !in cache {
        var commit :- FetchCommit(hash);
      }
      r := Ok(cache[hash]);
    }

    /** The branch of `get_commit` for a hash not yet cached: fetch and parse
        the commit, cache it, then resolve its tree and record it. */
    method FetchCommit(hash: Hash) returns (r: Result<Commit, Error>)
      requires TreeState(store, rank, cache, treeToTrees, treeToBlobs, blobs)
      requires CommitsResolved(cache, commitToTree) && hash !in cache
      requires TreesNamed(store, cache, {})
      modifies this`cache, this`commitToTree, this`treeToTrees, this`treeToBlobs, this`blobs
      ensures r.Ok? <==> CommitFetchable(store, rank, old(cache), hash)
      ensures r.Err? ==> Justified(store, cache, r.error)
      ensures hash !in store ==> r == Err(ObjectNotFound(hash))
      ensures hash in store && CommitOf(hash, store[hash]).tree == None ==> r == Err(ObjectNotFound(NoTreeName))
      ensures r.Ok? ==> TreeState(store, rank, cache, treeToTrees, treeToBlobs, blobs)
      ensures r.Ok? ==> TreesNamed(store, cache, {})
      ensures r.Ok? ==> CommitsResolved(cache, commitToTree) && Grew(old(cache), cache)
      ensures r.Ok? ==> BlobsWithin(old(blobs), blobs, NewTreeBlobs(old(cache), cache))
      ensures r.Ok? ==> && hash in store
                        && r.value == CommitOf(hash, store[hash])
                        && r.value.tree.Some?
                        && hash in cache && cache[hash] == CommitObject(r.value)
                        && commitToTree == old(commitToTree)[hash := r.value.tree.value]
      ensures r.Ok? && r.value.tree.value !in old(cache) && r.value.tree.value != hash ==>
                RootCached(store, cache, r.value.tree.value)
      ensures r.Ok? ==> forall x {:trigger x in cache} :: x in cache && x !in old(cache) ==>
                          x == hash || x in CommitTrees(store, rank, hash)
    {
      var content :- CatFile(hash);
      var commit := ParseCommit(hash, content);
      AddCommit(store, rank, cache, treeToTrees, treeToBlobs, blobs, hash);
      cache := cache[hash := CommitObject(commit)];
      FetchableWhen(store, rank, old(cache), cache, hash);
      ghost var cache1 := cache;
      r := RecordTree(commit, old(cache));
      if r.Ok? {
        BlobsWithinWiden(old(blobs), blobs, old(cache), cache1, cache);
      }
    }

    /** The rest of that branch, once `commit` is cached: resolve the tree its
        `tree` line names and record it as the commit's tree. */
    method RecordTree(commit: Commit, ghost cache0: map<Hash, Object>) returns (r: Result<Commit, Error>)
      requires TreeState(store, rank, cache, treeToTrees, treeToBlobs, blobs)
      requires CommitsResolved(cache0, commitToTree) && commit.hash !in cache0
      requires cache == cache0[commit.hash := CommitObject(commit)]
      requires TreesNamed(store, cache, {})
      modifies this`cache, this`commitToTree, this`treeToTrees, this`treeToBlobs, this`blobs
      ensures r.Ok? <==> commit.tree.Some? && TreeResolves(store, rank, old(cache), commit.tree.value)
      ensures r.Err? ==> Justified(store, cache, r.error)
      ensures commit.tree == None ==> r == Err(ObjectNotFound(NoTreeName))
      ensures r.Ok? ==> TreeState(store, rank, cache, treeToTrees, treeToBlobs, blobs)
      ensures r.Ok? ==> TreesNamed(store, cache, {})
      ensures r.Ok? ==> CommitsResolved(cache, commitToTree) && Grew(cache0, cache)
      ensures r.Ok? ==> BlobsWithin(old(blobs), blobs, NewTreeBlobs(old(cache), cache))
      ensures r.Ok? ==> && r.value == commit && commit.tree.Some?
                        && commit.hash in cache && cache[commit.hash] == CommitObject(commit)
                        && commitToTree == old(commitToTree)[commit.hash := commit.tree.value]
      ensures r.Ok? && commit.tree.value !in old(cache) ==> RootCached(store, cache, commit.tree.value)
      ensures r.Ok? ==> forall x {:trigger x in cache} :: x in cache && x !in cache0 ==>
                          x == commit.hash || x in TreesUnder(store, rank, commit.tree.value)
    {
      if commit.tree.None? {
        return Err(ObjectNotFound(NoTreeName));
      }
      var tree :- GetTree(commit.tree.value, RootName);
      assert tree.Id() == commit.tree.value by {
        assert Sound(store, commit.tree.value, tree);
      }
      ResolveCommit(store, rank, cache0, old(cache), cache, commitToTree, commit, RankOf(rank, commit.tree.value));
      commitToTree := commitToTree[commit.hash := tree.Id()];
      r := Ok(commit);
    }

    /** `traverse_history`: enter `hash` unless already entered, resolve it,
        and walk on through its parents. `active` holds the commits whose walk
        is under way further up. */
    method TraverseHistory(hash: Hash, ghost active: set<Hash>) returns (r: Result<(), Error>)
      requires TreeState(store, rank, cache, treeToTrees, treeToBlobs, blobs)
      requires CommitsResolved(cache, commitToTree) && ParentsKeyed(commitToParents, visited)
      requires active <= visited && WalkedExcept(cache, visited, commitToParents, active)
      requires TreesNamed(store, cache, {})
      modifies this`visited, this`commitToParents
      modifies this`cache, this`commitToTree, this`treeToTrees, this`treeToBlobs, this`blobs
      decreases store.Keys - visited, 0
      ensures HistoryResolves(store, rank, old(cache), hash) ==> r.Ok?
      ensures r.Err? ==> Justified(store, cache, r.error)
      ensures hash in old(visited) ==> r == Ok(()) && unchanged(this)
      ensures hash !in old(visited) && hash !in old(cache) && hash !in store ==> r == Err(ObjectNotFound(hash))
      ensures hash !in old(visited) && hash in old(cache) && old(cache)[hash].TreeObject? ==>
                r == Err(NotACommit(hash))
      ensures r.Ok? ==> TreeState(store, rank, cache, treeToTrees, treeToBlobs, blobs)
      ensures r.Ok? ==> TreesNamed(store, cache, {})
      ensures r.Ok? ==> CommitsResolved(cache, commitToTree) && ParentsKeyed(commitToParents, visited)
      ensures r.Ok? ==> WalkedExcept(cache, visited, commitToParents, active)
      ensures r.Ok? ==> Grew(old(cache), cache) && old(visited) <= visited && hash in visited
      ensures r.Ok? ==> EnteredFrom(store, old(visited), visited, hash)
      ensures r.Ok? ==> CacheFromWalk(store, rank, old(cache), cache, old(visited), visited)
      ensures r.Ok? ==> BlobsWithin(old(blobs), blobs, NewTreeBlobs(old(cache), cache))
      ensures r.Ok? ==> forall c {:trigger c in active} :: c in active ==> Get(commitToParents, c) == Get(old(commitToParents), c)
    {
      if hash in visited {
        return Ok(());
      }
      visited := visited + {hash};
      WalkedKept(cache, old(visited), commitToParents, active, cache, visited, commitToParents, active + {hash});
      ghost var cache0 := cache;
      var parents :- ParentsOf(hash);
      WalkedKept(cache0, visited, commitToParents, active + {hash}, cache, visited, commitToParents, active + {hash});
      CommitEntered(store, rank, cache0, cache, old(visited), hash);
      ghost var cache1, visited1, blobs1 := cache, visited, blobs;
      r := WalkParents(hash, parents, active);
      if r.Ok? {
        BlobsGrew(cache0, cache1, cache, old(blobs), blobs1, blobs);
        EnteredTrans(store, old(visited), visited1, visited, hash);
        CacheFromWalkTrans(store, rank, cache0, cache1, cache, old(visited), visited1, visited);
      }
    }

    /** The start of `traverse_history` after entering `hash`: get the commit
        and read its parents, which fails when `hash` names a tree. */
    method ParentsOf(hash: Hash) returns (r: Result<seq<Hash>, Error>)
      requires TreeState(store, rank, cache, treeToTrees, treeToBlobs, blobs)
      requires CommitsResolved(cache, commitToTree)
      requires TreesNamed(store, cache, {})
      modifies this`cache, this`commitToTree, this`treeToTrees, this`treeToBlobs, this`blobs
      ensures r.Ok? <==> if hash in old(cache) then old(cache)[hash].CommitObject?
                         else CommitFetchable(store, rank, old(cache), hash)
      ensures HistoryResolves(store, rank, old(cache), hash) ==> r.Ok? && HistoryResolves(store, rank, cache, hash)
      ensures r.Err? ==> Justified(store, cache, r.error)
      ensures hash !in old(cache) && hash !in store ==> r == Err(ObjectNotFound(hash))
      ensures hash in old(cache) && old(cache)[hash].TreeObject? ==> r == Err(NotACommit(hash))
      ensures r.Ok? ==> TreeState(store, rank, cache, treeToTrees, treeToBlobs, blobs)
      ensures r.Ok? ==> TreesNamed(store, cache, {})
      ensures r.Ok? ==> CommitsResolved(cache, commitToTree) && Grew(old(cache), cache)
      ensures r.Ok? ==> BlobsWithin(old(blobs), blobs, NewTreeBlobs(old(cache), cache))
      ensures r.Ok? ==> hash in store && r.value == StoreParents(store, hash)
      ensures r.Ok? ==> hash in cache && cache[hash].CommitObject? && cache[hash].commit.parents == r.value
      ensures r.Ok? ==> forall x {:trigger x in cache} :: x in cache && x !in old(cache) ==>
                          x == hash || x in CommitTrees(store, rank, hash)
    {
      if HistoryResolves(store, rank, cache, hash) {
        HistoryStep(store, rank, cache, hash, hash);
      }
      var commit :- GetCommit(hash);
      if !commit.CommitObject? {
        return Err(NotACommit(hash));
      }
      assert hash in store && commit.commit.parents == StoreParents(store, hash) by {
        assert Sound(store, hash, cache[hash]);
      }
      if HistoryResolves(store, rank, old(cache), hash) {
        HistoryResolvesGrow(store, rank, old(cache), cache, hash);
      }
      r := Ok(commit.commit.parents);
    }

    /** The loop of `traverse_history` over the parents of the entered commit
        `hash`. Afterwards `hash` itself is walked. */
    method WalkParents(hash: Hash, parents: seq<Hash>, ghost active: set<Hash>) returns (r: Result<(), Error>)
      requires TreeState(store, rank, cache, treeToTrees, treeToBlobs, blobs)
      requires CommitsResolved(cache, commitToTree) && ParentsKeyed(commitToParents, visited)
      requires active <= visited && hash in visited && hash !in active && hash !in commitToParents
      requires hash in cache && cache[hash].CommitObject? && cache[hash].commit.parents == parents
      requires WalkedExcept(cache, visited, commitToParents, active + {hash})
      requires TreesNamed(store, cache, {})
      modifies this`visited, this`commitToParents
      modifies this`cache, this`commitToTree, this`treeToTrees, this`treeToBlobs, this`blobs
      decreases store.Keys - visited, 3
      ensures HistoryResolves(store, rank, old(cache), hash) ==> r.Ok?
      ensures r.Err? ==> Justified(store, cache, r.error)
      ensures r.Ok? ==> TreeState(store, rank, cache, treeToTrees, treeToBlobs, blobs)
      ensures r.Ok? ==> TreesNamed(store, cache, {})
      ensures r.Ok? ==> CommitsResolved(cache, commitToTree) && ParentsKeyed(commitToParents, visited)
      ensures r.Ok? ==> WalkedExcept(cache, visited, commitToParents, active)
      ensures r.Ok? ==> Grew(old(cache), cache) && old(visited) <= visited
      ensures r.Ok? ==> EnteredFrom(store, old(visited), visited, hash)
      ensures r.Ok? ==> CacheFromWalk(store, rank, old(cache), cache, old(visited), visited)
      ensures r.Ok? ==> BlobsWithin(old(blobs), blobs, NewTreeBlobs(old(cache), cache))
      ensures r.Ok? ==> Get(commitToParents, hash) == Dedup(parents)
      ensures r.Ok? ==> forall c {:trigger c in active} :: c in active ==> Get(commitToParents, c) == Get(old(commitToParents), c)
    {
      for i := 0 to |parents|
        invariant TreeState(store, rank, cache, treeToTrees, treeToBlobs, blobs)
        invariant TreesNamed(store, cache, {})
        invariant CommitsResolved(cache, commitToTree) && ParentsKeyed(commitToParents, visited)
        invariant WalkedExcept(cache, visited, commitToParents, active + {hash})
        invariant Grew(old(cache), cache) && old(visited) <= visited
        invariant HistoryResolves(store, rank, old(cache), hash) ==> HistoryResolves(store, rank, cache, hash)
        invariant EnteredFrom(store, old(visited), visited, hash)
        invariant CacheFromWalk(store, rank, old(cache), cache, old(visited), visited)
        invariant BlobsWithin(old(blobs), blobs, NewTreeBlobs(old(cache), cache))
        invariant Get(commitToParents, hash) == Dedup(parents[..i])
        invariant forall j :: 0 <= j < i ==> parents[j] in visited
        invariant forall c {:trigger c in active} :: c in active ==> Get(commitToParents, c) == Get(old(commitToParents), c)
      {
        var done :- TakeParent(hash, parents, i, active, old(cache), old(visited), old(commitToParents), old(blobs));
      }
      assert parents[..|parents|] == parents;
      assert hash in cache && cache[hash] == old(cache)[hash];
      WalkedDone(cache, visited, commitToParents, active, hash, parents);
      r := Ok(());
    }

    /** The `i`-th turn of that loop, which walks the `i`-th parent, with what
        the loop keeps from its start (the states ending in 0) to the turn's end. */
    method TakeParent(hash: Hash, parents: seq<Hash>, i: nat, ghost active: set<Hash>,
                      ghost cache0: map<Hash, Object>, ghost visited0: set<Hash>,
                      ghost ctp0: map<Hash, seq<Hash>>, ghost blobs0: map<Hash, Blob>)
      returns (r: Result<(), Error>)
      requires TreeState(store, rank, cache, treeToTrees, treeToBlobs, blobs)
      requires CommitsResolved(cache, commitToTree) && ParentsKeyed(commitToParents, visited)
      requires active <= visited && hash in visited && hash !in active
      requires hash in cache0 && cache0[hash].CommitObject? && cache0[hash].commit.parents == parents && i < |parents|
      requires WalkedExcept(cache, visited, commitToParents, active + {hash})
      requires Grew(cache0, cache) && visited0 <= visited
      requires HistoryResolves(store, rank, cache0, hash) ==> HistoryResolves(store, rank, cache, hash)
      requires EnteredFrom(store, visited0, visited, hash)
      requires CacheFromWalk(store, rank, cache0, cache, visited0, visited)
      requires BlobsWithin(blobs0, blobs, NewTreeBlobs(cache0, cache))
      requires Get(commitToParents, hash) == Dedup(parents[..i])
      requires forall j :: 0 <= j < i ==> parents[j] in visited
      requires forall c {:trigger c in active} :: c in active ==> Get(commitToParents, c) == Get(ctp0, c)
      requires TreesNamed(store, cache, {})
      modifies this`visited, this`commitToParents
      modifies this`cache, this`commitToTree, this`treeToTrees, this`treeToBlobs, this`blobs
      decreases store.Keys - visited, 2
      ensures HistoryResolves(store, rank, cache0, hash) ==> r.Ok?
      ensures r.Err? ==> Justified(store, cache, r.error)
      ensures r.Ok? ==> TreeState(store, rank, cache, treeToTrees, treeToBlobs, blobs)
      ensures r.Ok? ==> TreesNamed(store, cache, {})
      ensures r.Ok? ==> CommitsResolved(cache, commitToTree) && ParentsKeyed(commitToParents, visited)
      ensures r.Ok? ==> WalkedExcept(cache, visited, commitToParents, active + {hash})
      ensures r.Ok? ==> Grew(cache0, cache) && visited0 <= visited
      ensures r.Ok? ==> HistoryResolves(store, rank, cache0, hash) ==> HistoryResolves(store, rank, cache, hash)
      ensures r.Ok? ==> EnteredFrom(store, visited0, visited, hash)
      ensures r.Ok? ==> CacheFromWalk(store, rank, cache0, cache, visited0, visited)
      ensures r.Ok? ==> BlobsWithin(blobs0, blobs, NewTreeBlobs(cache0, cache))
      ensures r.Ok? ==> Get(commitToParents, hash) == Dedup(parents[..i + 1])
      ensures r.Ok? ==> forall j :: 0 <= j < i + 1 ==> parents[j] in visited
      ensures r.Ok? ==> forall c {:trigger c in active} :: c in active ==> Get(commitToParents, c) == Get(ctp0, c)
    {
      ghost var cache1, visited1, parents1, blobs1 := cache, visited, commitToParents, blobs;
      ParentHistory(store, rank, cache, hash, parents, i);
      r := WalkParent(hash, parents[i], active);
      if r.Ok? {
        WalkTurn(store, rank, cache0, cache1, cache, visited0, visited1, visited,
                 ctp0, parents1, commitToParents, blobs0, blobs1, blobs, active, hash, parents, i);
      }
    }

    /** One turn of that loop: record the edge from `hash` to `parent`, then
        walk on from `parent`. */
    method WalkParent(hash: Hash, parent: Hash, ghost active: set<Hash>) returns (r: Result<(), Error>)
      requires TreeState(store, rank, cache, treeToTrees, treeToBlobs, blobs)
      requires CommitsResolved(cache, commitToTree) && ParentsKeyed(commitToParents, visited)
      requires active <= visited && hash in visited && hash !in active
      requires WalkedExcept(cache, visited, commitToParents, active + {hash})
      requires TreesNamed(store, cache, {})
      modifies this`visited, this`commitToParents
      modifies this`cache, this`commitToTree, this`treeToTrees, this`treeToBlobs, this`blobs
      decreases store.Keys - visited, 1
      ensures HistoryResolves(store, rank, old(cache), parent) ==> r.Ok?
      ensures r.Err? ==> Justified(store, cache, r.error)
      ensures r.Ok? ==> TreeState(store, rank, cache, treeToTrees, treeToBlobs, blobs)
      ensures r.Ok? ==> TreesNamed(store, cache, {})
      ensures r.Ok? ==> CommitsResolved(cache, commitToTree) && ParentsKeyed(commitToParents, visited)
      ensures r.Ok? ==> WalkedExcept(cache, visited, commitToParents, active + {hash})
      ensures r.Ok? ==> Grew(old(cache), cache) && old(visited) <= visited && parent in visited
      ensures r.Ok? ==> EnteredFrom(store, old(visited), visited, parent)
      ensures r.Ok? ==> CacheFromWalk(store, rank, old(cache), cache, old(visited), visited)
      ensures r.Ok? ==> BlobsWithin(old(blobs), blobs, NewTreeBlobs(old(cache), cache))
      ensures r.Ok? ==> Get(commitToParents, hash) == Get(Insert(old(commitToParents), hash, parent), hash)
      ensures r.Ok? ==> forall c {:trigger c in active} :: c in active ==> Get(commitToParents, c) == Get(old(commitToParents), c)
    {
      InsertSpec(commitToParents, hash, parent);
      EdgeAdded(cache, visited, commitToParents, active + {hash}, hash, parent);
      commitToParents := AddToMultimap(commitToParents, hash, parent);
      r := TraverseHistory(parent, active + {hash});
    }

    /** `parse_dot_git_dir`: record each branch's tip and walk its history.
        Afterwards every ancestor of every tip has been walked. */
    method ParseDotGitDir(branchList: seq<Branch>) returns (r: Result<(), Error>)
      requires Valid()
      modifies this
      ensures branches == branchList
      ensures TipsResolve(store, rank, old(cache), branchList, |branchList|) ==> r.Ok?
      ensures r.Err? ==> Justified(store, cache, r.error)
      ensures r.Ok? ==> Valid() && Grew(old(cache), cache)
      ensures r.Ok? ==> EnteredFromTips(store, old(visited), visited, branchList, |branchList|)
      ensures r.Ok? ==> CacheFromWalk(store, rank, old(cache), cache, old(visited), visited)
      ensures r.Ok? ==> BlobsWithin(old(blobs), blobs, NewTreeBlobs(old(cache), cache))
      ensures r.Ok? ==> branchToCommit == RecordBranches(old(branchToCommit), branchList)
      ensures r.Ok? ==> old(visited) <= visited
      ensures r.Ok? ==> forall i :: 0 <= i < |branchList| ==> branchList[i].commit in visited
      ensures r.Ok? ==> ClosedUnderParents(store, visited)
    {
      branches := branchList;
      for i := 0 to |branchList|
        invariant branches == branchList
        invariant TreeState(store, rank, cache, treeToTrees, treeToBlobs, blobs)
        invariant TreesNamed(store, cache, {})
        invariant CommitsResolved(cache, commitToTree) && ParentsKeyed(commitToParents, visited)
        invariant WalkedExcept(cache, visited, commitToParents, {})
        invariant Grew(old(cache), cache) && old(visited) <= visited
        invariant TipsResolve(store, rank, old(cache), branchList, |branchList|) ==>
                    TipsResolve(store, rank, cache, branchList, |branchList|)
        invariant EnteredFromTips(store, old(visited), visited, branchList, i)
        invariant CacheFromWalk(store, rank, old(cache), cache, old(visited), visited)
        invariant BlobsWithin(old(blobs), blobs, NewTreeBlobs(old(cache), cache))
        invariant branchToCommit == RecordBranches(old(branchToCommit), branchList[..i])
        invariant forall j :: 0 <= j < i ==> branchList[j].commit in visited
      {
        var done :- TakeBranch(branchList, i, old(cache), old(visited), old(blobs), old(branchToCommit));
      }
      assert branchList[..|branchList|] == branchList;
      WalkedClosed(store, cache, visited, commitToParents);
      BlobsListedKept(old(cache), cache, old(blobs), blobs);
      r := Ok(());
    }

    /** The `i`-th turn of the loop of `parse_dot_git_dir`: record the branch's
        tip and walk its history, with what the loop keeps from its start (the
        states ending in 0) to the turn's end. */
    method TakeBranch(branchList: seq<Branch>, i: nat, ghost cache0: map<Hash, Object>, ghost visited0: set<Hash>,
                      ghost blobs0: map<Hash, Blob>, ghost branchToCommit0: map<string, Hash>)
      returns (r: Result<(), Error>)
      requires i < |branchList|
      requires TreeState(store, rank, cache, treeToTrees, treeToBlobs, blobs)
      requires CommitsResolved(cache, commitToTree) && ParentsKeyed(commitToParents, visited)
      requires WalkedExcept(cache, visited, commitToParents, {})
      requires Grew(cache0, cache) && visited0 <= visited
      requires TipsResolve(store, rank, cache0, branchList, |branchList|) ==>
                 TipsResolve(store, rank, cache, branchList, |branchList|)
      requires EnteredFromTips(store, visited0, visited, branchList, i)
      requires CacheFromWalk(store, rank, cache0, cache, visited0, visited)
      requires BlobsWithin(blobs0, blobs, NewTreeBlobs(cache0, cache))
      requires branchToCommit == RecordBranches(branchToCommit0, branchList[..i])
      requires forall j :: 0 <= j < i ==> branchList[j].commit in visited
      requires TreesNamed(store, cache, {})
      modifies this`branchToCommit, this`visited, this`commitToParents
      modifies this`cache, this`commitToTree, this`treeToTrees, this`treeToBlobs, this`blobs
      ensures TipsResolve(store, rank, cache0, branchList, |branchList|) ==> r.Ok?
      ensures r.Err? ==> Justified(store, cache, r.error)
      ensures r.Ok? ==> TreeState(store, rank, cache, treeToTrees, treeToBlobs, blobs)
      ensures r.Ok? ==> TreesNamed(store, cache, {})
      ensures r.Ok? ==> CommitsResolved(cache, commitToTree) && ParentsKeyed(commitToParents, visited)
      ensures r.Ok? ==> WalkedExcept(cache, visited, commitToParents, {})
      ensures r.Ok? ==> Grew(cache0, cache) && visited0 <= visited
      ensures r.Ok? ==> TipsResolve(store, rank, cache0, branchList, |branchList|) ==>
                          TipsResolve(store, rank, cache, branchList, |branchList|)
      ensures r.Ok? ==> EnteredFromTips(store, visited0, visited, branchList, i + 1)
      ensures r.Ok? ==> CacheFromWalk(store, rank, cache0, cache, visited0, visited)
      ensures r.Ok? ==> BlobsWithin(blobs0, blobs, NewTreeBlobs(cache0, cache))
      ensures r.Ok? ==> branchToCommit == RecordBranches(branchToCommit0, branchList[..i + 1])
      ensures r.Ok? ==> forall j :: 0 <= j < i + 1 ==> branchList[j].commit in visited
    {
      var branch := branchList[i];
      RecordBranchesStep(branchToCommit0, branchList, i);
      branchToCommit := branchToCommit[branch.name := branch.commit];
      ghost var cache1, visited1, blobs1 := cache, visited, blobs;
      r := TraverseHistory(branch.commit, {});
      if r.Ok? {
        GrewTrans(cache0, cache1, cache, visited0, visited1, visited);
        BlobsGrew(cache0, cache1, cache, blobs0, blobs1, blobs);
        TipsEntered(branchList, i, visited1, visited);
        TipWalked(store, visited0, visited1, visited, branchList, i);
        CacheFromWalkTrans(store, rank, cache0, cache1, cache, visited0, visited1, visited);
        if TipsResolve(store, rank, cache0, branchList, |branchList|) {
          TipsResolveGrow(store, rank, cache1, cache, branchList);
        }
      }
    }
  }
}
