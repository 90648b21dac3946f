# git-graph: the repository data model, in Dafny

git-graph.py draws the data model of a Git repository: its branches, commits,
trees and blobs, and the edges between them. Its `GitRepo` class builds that
model. It starts from each branch tip, reads every object it needs with
`git cat-file -p`, and parses the printed text. It keeps every parsed commit and
tree in an object cache and records the edges in four indices:

- commit → parents, a multimap;
- commit → tree, a plain dictionary holding one tree per commit;
- tree → subtrees, a multimap;
- tree → blobs, a multimap.

In a multimap a key maps to a list that holds each value once, in the order
the value was first added. A fifth table maps each blob hash to its blob
record, and a branch table maps each branch name to its tip.

This project models that class and proves what it builds.

- `text.dfy`: `str.split('\n')` and the argument-less `str.split()` of
  Python, with the whitespace set Python uses.
- `objects.dfy`: the Branch, Commit, Tree and Blob records, the cache
  entries, and the failures that end a run.
- `multimap.dfy`: `add_to_multimap` as a function on maps (`Insert`) and
  its laws.
- `parse.dfy`: what `parse_commit` and `parse_tree` extract from an object's
  text, as functions on its lines, with their laws.
- `history.dfy`: ancestry as the stored objects record it, and the branch
  table.
- `git_repo.dfy`: the class `GitRepo`. Its fields are those of the Python
  class. Its methods change them in place, as the source does. The walk's
  `visited` set is a field.

The object store is a constant map from object names to the text
`git cat-file -p` prints for them. A name that is not in the map is a failed
`git cat-file`. The model returns an `Err` result for three exceptions the
class can raise:

- `ObjectNotFound` for a failed `git cat-file`, which the source raises
  itself;
- `MalformedTreeEntry` for a tree line that does not unpack into four
  fields, where Python raises on the unpacking;
- `NotACommit` for a walk that reaches a hash the cache holds as a tree,
  where Python raises an `AttributeError` on reading `.parents` of a tree
  record.

Every error the model returns is justified. Resolving a tree fails only with
`ObjectNotFound` for a hash the store lacks, or with `MalformedTreeEntry` for
a malformed line of some stored text (`TreeError`). The commit and walk
operations may also fail with the `None` of a commit without a `tree` line,
or with `NotACommit` for a hash cached as a tree (`Justified`).

Each operation also says when it succeeds:

- `get_tree` succeeds exactly when the tree resolves (`TreeResolves`). A tree
  resolves when it is cached, or when it is stored, its text parses and
  each subtree resolves.
- `get_commit` succeeds exactly when the commit is cached or can be fetched
  (`CommitFetchable`): it is stored, it has a `tree` line, and that tree
  resolves once the commit itself is cached.
- `traverse_history` succeeds when every ancestor of its commit can be
  taken (`HistoryResolves`). `parse_dot_git_dir` succeeds when that holds
  for every branch tip (`TipsResolve`).

What the operations add is bounded too. `get_tree` caches only trees that
`tree` lines lead to from its hash (`TreesUnder`). The walk enters only
ancestors of the commits it starts from (`EnteredFrom`, `EnteredFromTips`).
It caches only the commits it enters and trees under their trees
(`CacheFromWalk`). The blob table gains or changes an entry only at a blob
that a newly cached tree lists, or, while a tree is being parsed, at a hash
of one of its own `blob` lines (`BlobsWithin`, `NewTreeBlobs`).

Tree names are what the graph prints for each tree. A commit's root tree is
cached under `/`, the default name of `get_tree` (`RootCached`). A subtree
that is not yet cached gets the name on the `tree` line that reaches it
(`ParseTreeLine`).

The class invariant covers trees, commits and the walk:

- every cached object is what parsing its stored text gives;
- every cached tree has its subtrees cached and its blobs recorded, and
  every recorded blob is listed by a cached tree, so the blob table holds
  exactly the blobs of the cached trees (`BlobKeysExact`);
- the tree indices list exactly the cached trees' children, deduplicated and
  in order;
- every cached tree is named `/` or carries the name that some `tree` line
  of the store gives its hash (`TreesNamed`);
- every cached commit has its tree recorded and cached;
- every entered commit that the walk has finished has its parents entered,
  and its parent edges recorded in order.

`get_tree` recurses into subtrees before it caches anything. Its recursion
ends only because a stored tree structure is acyclic. The model makes this
explicit with a ghost ranking of the store (`TreeRanked`), which the
constructor requires.

Two behaviours of the code are worth knowing:

- **Tree line in a commit.** The code keeps the value of the last `tree`
  line of a commit (`TreeFieldIsLast`). A commit without one goes on to ask
  the object store for an object named `None` (`RootCommit`, `GetCommit`).
- **Subtrees and blobs.** The code does not keep a tree's subtree list and
  blob list disjoint. A tree text that names one hash once as `tree` and
  once as `blob` puts it in both lists (`SameHashInBothLists`).

## Model

| member | source | states |
|---|---|---|
| Text.SplitLines | git-graph.py:75 | Splitting on newlines always gives at least one line, and no line contains a newline. |
| Text.JoinSplitLines | git-graph.py:75 | Joining the lines of `content.split('\n')` with newlines gives the text back, so no character is lost. |
| Text.SplitJoinLines | git-graph.py:75 | Splitting newline-free lines that were joined with newlines gives exactly those lines back. |
| Text.Word | git-graph.py:80 | A word is a whitespace-free prefix of the text, and it stops only at whitespace or at the end. |
| Text.Tokens | git-graph.py:80 | Every token that `line.split()` produces is non-empty and free of whitespace. |
| Text.TokensKeepNonSpace | git-graph.py:80 | Together, the tokens hold exactly the non-whitespace characters of the line, in order. |
| Text.TokensOfWord | git-graph.py:108 | A whitespace-free word is a single token: `split()` never breaks a run of non-whitespace characters. |
| Text.TokensSeparated | git-graph.py:80 | A whitespace character separates tokens: the tokens of `a + [c] + b` are those of `a` followed by those of `b`. With TokensOfWord this makes the tokens the maximal runs of non-whitespace. |
| Text.TokensUnwords | git-graph.py:108 | Splitting words that were joined with single spaces gives back the same words. |
| Multimaps.Insert | git-graph.py:135-139 | `add_to_multimap` adds the key if needed, the value ends up under the key, and the values already there stay. |
| Multimaps.InsertSpec | git-graph.py:135-139 | After `add_to_multimap` the key holds the value. Nothing changes if the value was already present; otherwise the value is appended at the end. Only the key is added, every other key keeps its list, and no duplicate and no empty list appears. |
| Multimaps.Dedup | git-graph.py:138-139 | The list that repeated insertion builds is never longer than the values inserted. |
| Multimaps.DedupSnoc | git-graph.py:138-139 | Values stay in order of first occurrence: one more value is appended if it is new and dropped if it occurred before. |
| Multimaps.DedupSpec | git-graph.py:135-139 | The list that repeated insertion builds holds no duplicates and holds exactly the values that were inserted. |
| Multimaps.DedupOfDistinct | git-graph.py:135-139 | Inserting a list that has no duplicates records it unchanged. |
| Multimaps.InsertAll | git-graph.py:94-97 | Adding a tree's children one by one adds at most the tree's key, leaves every other key's list alone, and records every child under the tree. |
| Multimaps.InsertAllFresh | git-graph.py:94-97 | Adding a list of values under a new key records exactly the deduplicated list there. The key appears only if the list is non-empty, and every other key is untouched. |
| Parse.FieldValue | git-graph.py:80-86 | A line gives a field exactly when it has at least two fields and the first is the keyword; the value is then the second field, a single word. |
| Parse.TreeField | git-graph.py:83-84 | The tree field, when present, is a single word. |
| Parse.ParentFields | git-graph.py:85-86 | There is at most one parent per line, and every parent is a single word. |
| Parse.CommitOf | git-graph.py:74-87 | `parse_commit` keeps the hash it is given; the tree and every parent are single words, and there are at most as many parents as lines. |
| Parse.ParentFieldsAppend | git-graph.py:77-86 | Parent lines accumulate in order: the parents of two runs of lines are the first run's parents followed by the second run's. |
| Parse.TreeFieldAppend | git-graph.py:83-84 | A later run of lines with a `tree` line overrides the earlier value, and a run without one keeps it. |
| Parse.ParentFieldsMembers | git-graph.py:85-86 | A hash is a parent if and only if some line is a `parent` line naming it. |
| Parse.TreeFieldAbsent | git-graph.py:76 | The tree stays `None` if and only if no line is a `tree` line. |
| Parse.TreeFieldIsLast | git-graph.py:83-84 | A present tree is the value of a `tree` line that no other `tree` line follows. |
| Parse.NoTreeLineAfter | git-graph.py:83-84 | A final line that is not a `tree` line keeps the last `tree` line last. |
| Parse.IgnoredLinesKeepTree | git-graph.py:78-86 | Lines that are neither `tree` nor `parent` lines leave the tree unchanged, wherever they stand. |
| Parse.IgnoredLinesKeepParents | git-graph.py:78-86 | The same lines leave the parent list unchanged. |
| Parse.NoFieldsInIgnored | git-graph.py:78-86 | Empty lines, one-field lines and lines with other keywords give neither a tree nor a parent. |
| Parse.RootCommit | git-graph.py:76 | A text without `parent` lines parses to a commit with no parents. A text without a `tree` line parses to a commit whose tree is `None`. |
| Parse.LineOfWords | git-graph.py:80-86 | A line built from words has no newline, and its tree and parent values are read from its first two words. |
| Parse.OtherKeywordLine | git-graph.py:83-86 | An `author` or `committer` line is ignored by the commit parser. |
| Parse.OneLine | git-graph.py:77-86 | A single line gives its own tree value, and its parent value as a one-element list. |
| Parse.ThreeLineFields | git-graph.py:83-86 | A `tree` line and two `parent` lines give that tree and those two parents, in order. |
| Parse.FiveLineCommit | git-graph.py:74-87 | A tree line, two parent lines and two ignored lines parse to that tree and those two parents, in order. |
| Parse.CommitFieldNarrowing | git-graph.py:74-87 | A commit text with `tree t`, `parent p1`, `parent p2`, an author line and a committer line parses to tree `t` and parents `[p1, p2]`, and keeps nothing else. |
| Parse.ParseEntries | git-graph.py:104-108 | Tree parsing gives at most one entry per line, every field of an entry is a single word, and a failure names a malformed line of the text. |
| Parse.SubtreesOf | git-graph.py:109-111 | The subtree list has at most one hash per entry. |
| Parse.BlobsOf | git-graph.py:112-113 | The blob list has at most one hash per entry. |
| Parse.TreeOf | git-graph.py:101-115 | `parse_tree` keeps the hash and name it is given, and its two lists together hold at most one hash per entry. |
| Parse.ParseEntriesFails | git-graph.py:104-108 | A tree text fails to parse if and only if some non-empty line does not have four fields. |
| Parse.ParseEntriesFirstError | git-graph.py:104-108 | A failed parse names the first such line: that line is malformed and every line before it is well formed. |
| Parse.SomeMalformed | git-graph.py:104-108 | A malformed line of a text is one of its first lines or its last line. |
| Parse.ParseEntriesAppend | git-graph.py:104-108 | Tree parsing goes line by line: the entries of later lines are appended to those of earlier lines, or the later error is the result. |
| Parse.SubtreesOfPrefix | git-graph.py:104-111 | The first lines of a text that parses parse too, and their subtrees are subtrees of the whole text. |
| Parse.ParseEntriesLine | git-graph.py:105-108 | An empty line gives no entry, and a four-field line gives one entry holding its fields in order. |
| Parse.ParseEntriesStep | git-graph.py:104-113 | Parsing one more line either skips an empty line, fails on a malformed one, or appends its entry, whose hash goes to the list that its type selects. |
| Parse.SubtreesAppend | git-graph.py:109-113 | The subtree and blob lists of consecutive entries are concatenations. |
| Parse.SubtreesRouted | git-graph.py:109-111 | A hash is in the subtree list if and only if some entry of type `tree` carries it. |
| Parse.BlobsRouted | git-graph.py:112-113 | A hash is in the blob list if and only if some entry of type `blob` carries it. |
| Parse.EntriesCounted | git-graph.py:109-113 | Every entry lands in at most one of the two lists, and entries of any other type land in neither. |
| Parse.EntryOfWords | git-graph.py:108 | A line of four words parses to the entry holding those words, in order. |
| Parse.SingleEntry | git-graph.py:109-113 | A single entry goes to the list that its type selects, and only to that list. |
| Parse.TwoLines | git-graph.py:104-108 | Two lines that each parse on their own parse together to both entries, in order. |
| Parse.TwoEntries | git-graph.py:109-113 | The subtree and blob lists of two entries are those of each entry in turn. |
| Parse.SameHashInBothLists | git-graph.py:109-114 | The parser does not keep the lists disjoint: a `tree` line and a `blob` line with the same hash put it in both lists. |
| History.StoreParents | git-graph.py:58-59 | The parents the store records for a commit are single words, and an unknown hash has none. |
| History.AncestorSelf | git-graph.py:55-58 | Every commit is its own ancestor, so the walk from a commit may enter the commit itself. |
| History.AncestorStep | git-graph.py:59-62 | An ancestor of a parent is an ancestor, so what the walk of a parent enters descends from the child. |
| History.ClosedSetHoldsAncestors | git-graph.py:54-62 | A set of commits that holds every parent of each member holds every ancestor of each member. |
| History.RecordBranches | git-graph.py:43-44 | The branch loop keeps every name already in the table and adds the name of every branch. |
| History.RecordBranchesKeys | git-graph.py:43-44 | After the branch loop, the branch table's names are the old names plus the branches' names. |
| History.RecordBranchesLastWins | git-graph.py:43-44 | A branch name points at the commit of the last branch with that name. |
| History.RecordBranchesKeepsOthers | git-graph.py:43-44 | A name that no branch carries keeps its commit. |
| History.RecordBranchesStep | git-graph.py:44 | One turn of the branch loop adds exactly one name-to-commit entry. |
| GitGraph.ResolvesGrow | git-graph.py:91 | A tree that resolves keeps resolving while the cache grows, because a cached hash is returned as it is. |
| GitGraph.ResolvesShrink | git-graph.py:91-99 | A tree that resolves from a grown cache resolves from the old one, when everything added resolves from the old one. |
| GitGraph.TreesUnderStep | git-graph.py:109-110 | What `tree` lines lead to from a subtree, they lead to from its parent tree. |
| GitGraph.ResolvedAdd | git-graph.py:94-98 | Caching a tree whose subtrees are cached and whose blobs are recorded keeps every cached tree resolved. |
| GitGraph.IndexAddOne | git-graph.py:94-97 | Adding a new tree's children to an index records their deduplicated list under the tree and changes no other key. |
| GitGraph.IndexKeysAdd | git-graph.py:94-98 | After the tree is cached, the index's keys are still cached trees, each with some value. |
| GitGraph.IndexValuesAdd | git-graph.py:94-98 | After the tree is cached, each cached tree's index entries are still its children, deduplicated and in order. |
| GitGraph.IndexedAdd | git-graph.py:94-98 | Both tree indices stay exact when a new tree is added to them and cached. |
| GitGraph.AddTree | git-graph.py:94-98 | Caching a freshly parsed and resolved tree, with its children indexed, keeps the whole tree invariant. |
| GitGraph.AddBlob | git-graph.py:113-114 | Recording a blob under its hash keeps the tree invariant, keeps every blob already recorded and records the new one. |
| GitGraph.SubtreeAdded | git-graph.py:110-111 | After a subtree is resolved, the tree being parsed is still uncached, only lower-ranked trees were added, and the subtrees met so far are all cached. |
| GitGraph.NewTreesTrans | git-graph.py:104-111 | Two rounds that each add only trees of a bounded rank, reachable from the tree being parsed and resolving from the cache they start with, add only such trees. |
| GitGraph.TreeCached | git-graph.py:98 | Caching the parsed tree, which resolves from the cache the parse started with, keeps the bound on what the parse added. |
| GitGraph.BlobsWithinTrans | git-graph.py:113-114 | Two rounds of blob writes keep every key and change only entries either round allows. |
| GitGraph.NewTreeBlobsTrans | git-graph.py:94-98 | The blobs listed by trees cached over two rounds include those listed by the trees of each round. |
| GitGraph.BlobsGrew | git-graph.py:113-114 | Two stretches that each write only blobs of the trees they cache together write only blobs of the trees they cache. |
| GitGraph.BlobsWithinWiden | git-graph.py:66-71 | Measured from a cache with fewer objects, the bound on blob writes still holds. |
| GitGraph.TreeBlobsCached | git-graph.py:98 | Once the parsed tree is cached, the blobs its own lines wrote are blobs of a newly cached tree. |
| GitGraph.BlobsTaken | git-graph.py:104-114 | A line that parses keeps the loop's bound on the blob table: entries change only at blobs of the trees cached and at the `blob` hashes gathered so far. |
| GitGraph.BlobsListedKept | git-graph.py:41-45 | While the cache grows and the blob table changes only at blobs of the trees added, every recorded blob stays listed by a cached tree. |
| GitGraph.BlobKeysExact | git-graph.py:113-114 | In the class invariant the blob table's keys are exactly the blob hashes the cached trees list, so the renderer draws one blob node per blob of a resolved tree. |
| GitGraph.LineFailure | git-graph.py:104-110 | A line that fails makes the whole tree fail to resolve from the cache the parse started with. |
| GitGraph.TreeParsed | git-graph.py:104-115 | Proof step for the end of the loop of ParseTree: once every line has been taken, the text parses and every subtree met resolves, so the tree resolves. |
| GitGraph.LineTaken | git-graph.py:104-113 | A line that parses extends the gathered hashes to those of one more line, keeps the bound on added trees, and keeps every gathered subtree resolving from the cache the parse started with. |
| GitGraph.SubtreesStillResolve | git-graph.py:109-111 | The subtrees met so far all resolve from the cache the parse started with. |
| GitGraph.LineParsed | git-graph.py:104-113 | A line that is not malformed extends the parsed entries, and with them the hashes of the `tree` and `blob` lines. |
| GitGraph.AddCommit | git-graph.py:69 | Caching a parsed commit keeps the tree invariant. |
| GitGraph.FetchableWhen | git-graph.py:68-70 | Proof step for FetchCommit: CommitFetchable restated for the cache that already holds the commit, so that RecordTree's success condition can be matched against it. |
| GitGraph.ResolveCommit | git-graph.py:69-71 | After a new commit's tree is resolved and recorded, every cached commit has its tree recorded and cached, and the cache gained only the commit and trees under its tree. |
| GitGraph.WalkedKept | git-graph.py:55-62 | Commits the walk has finished stay finished while the cache grows and newly entered commits are still in progress. |
| GitGraph.EdgeAdded | git-graph.py:60-61 | Recording an edge from the commit in progress keeps edges keyed by entered commits and leaves every finished commit finished. |
| GitGraph.DedupStep | git-graph.py:59-61 | Proof step for the parent loop: inserting the next parent makes the recorded edges the deduplicated list of one more parent. |
| GitGraph.TurnTaken | git-graph.py:59-62 | One turn of the parent loop grows the cache and the entered set, keeps the parents entered so far, extends the recorded edges by the next parent, and leaves the edges of commits further up the walk unchanged. |
| GitGraph.TipsEntered | git-graph.py:43-45 | Branch tips already walked stay entered while more commits are entered. |
| GitGraph.WalkedDone | git-graph.py:59-62 | A commit whose parents are all entered and whose edges are recorded is finished. |
| GitGraph.WalkedClosed | git-graph.py:54-62 | When no commit is in progress, the entered set holds the parents of every member. |
| GitGraph.TreeIndexFromStore | git-graph.py:90-99 | For a cached tree, the tree indices hold the `tree` and `blob` hashes that its stored text lists, each once, in order. |
| GitGraph.CommitTreeFromStore | git-graph.py:70-71 | The tree recorded for a cached commit is the one named by the commit's last `tree` line. |
| GitGraph.ParentIndexFromStore | git-graph.py:59-61 | After the walk, an entered commit's parent edges are the parents its stored text lists, each once, in order. |
| GitGraph.GrewTrans | git-graph.py:43-45 | A cache that grew twice has grown, and so has the entered set. |
| GitGraph.CommitResolvesGrow | git-graph.py:58-59 | A commit the walk can take stays so while the cache grows with objects that agree with the store. |
| GitGraph.HistoryResolvesGrow | git-graph.py:54-62 | A history the walk can take stays so while the cache grows. |
| GitGraph.HistoryStep | git-graph.py:58-62 | In a history the walk can take, the first commit can be taken, and so can the history of each of its parents. |
| GitGraph.ParentHistory | git-graph.py:59-62 | The history of each parent of a cached commit whose history can be taken can be taken too. |
| GitGraph.AncestorsEntered | git-graph.py:59-62 | Commits entered while walking a parent are ancestors of the child. |
| GitGraph.CacheFromWalkTrans | git-graph.py:54-62 | Two stretches of the walk together cache only the commits entered over both and trees under their trees. |
| GitGraph.CommitEntered | git-graph.py:57-58 | Entering a commit and fetching it, which caches at most the commit and trees under its tree, is a stretch of the walk from that commit. |
| GitGraph.EnteredTrans | git-graph.py:54-62 | Two stretches of the walk from one commit enter only its ancestors. |
| GitGraph.WalkTurn | git-graph.py:59-62 | One turn of the parent loop keeps the loop's invariants, a history it could take stays takeable, it enters only ancestors of the commit, it caches only what those commits bring, and it changes the blob table only at blobs of the trees it caches. |
| GitGraph.TipsResolveGrow | git-graph.py:43-45 | Tip histories the walk can take stay so while the cache grows. |
| GitGraph.TipWalked | git-graph.py:43-45 | Walking one more tip enters only ancestors of the tips walked so far. |
| GitGraph.GitRepo.constructor | git-graph.py:27-38 | A new repository has empty cache, branches, branch table, indices, blobs and entered set, and the invariant holds. |
| GitGraph.GitRepo.CatFile | git-graph.py:117-123 | Fetching an object succeeds if and only if the store holds it, and then yields its text; otherwise the error names the missing hash. |
| GitGraph.GitRepo.AddToMultimap | git-graph.py:135-139 | `add_to_multimap` computes `Insert`, whose laws are stated in `InsertSpec`. |
| GitGraph.GitRepo.AddEachToMultimap | git-graph.py:94-97 | Adding a tree's children one by one gives the multimap with all of them inserted in order. |
| GitGraph.GitRepo.ParseCommit | git-graph.py:74-87 | `parse_commit` gives the commit whose tree is the last `tree` line's value and whose parents are the `parent` lines' values, in order. |
| GitGraph.GitRepo.GetTree | git-graph.py:90-99 | Succeeds exactly when the tree resolves from the cache it starts with. It fails only with a hash the store lacks or a malformed stored line. A cached hash returns its object and changes nothing; a missing object fails with its name. Success caches exactly the parsed tree, keeps the invariant, only grows the cache and the blobs, caches only trees that `tree` lines lead to from the hash, and adds or changes blob entries only at blobs that a newly cached tree lists. Every other cached tree keeps the name `/` or a name a `tree` line gives it. |
| GitGraph.GitRepo.FetchTree | git-graph.py:91-98 | For an uncached hash, succeeds exactly when the tree resolves, and fails only with a hash the store lacks or a malformed stored line; a missing object fails with its name. On success the tree parsed from the store is cached, the invariant holds, only trees that `tree` lines lead to from the hash were added, and the blob table changed only at blobs that a newly cached tree lists. The tree is cached under the name passed in, and every other cached tree keeps the name `/` or a name a `tree` line gives it. |
| GitGraph.GitRepo.CacheTree | git-graph.py:94-98 | The blob and subtree indices gain exactly the new tree's children, in order and without duplicates, and the tree is cached. The invariant is kept. |
| GitGraph.GitRepo.ParseTree | git-graph.py:101-115 | `parse_tree` succeeds exactly when the tree resolves from the cache it starts with, and fails only with a hash the store lacks or a malformed stored line. On success it returns the tree of the text's entries, with every subtree cached and every blob recorded, keeps the tree being parsed uncached, and caches only trees below it. The blob table changes only at the text's own `blob` hashes and at blobs that a newly cached subtree lists. Every cached tree keeps the name `/` or a name a `tree` line gives it. |
| GitGraph.GitRepo.TakeTreeLine | git-graph.py:104-114 | The outcome of one line as ParseTreeLine gives it, with the invariant, the bound on the trees it caches, and the bound on the blob table: it changes only at the line's own `blob` hash and at blobs that a newly cached subtree lists. Every cached tree keeps the name `/` or a name a `tree` line gives it. |
| GitGraph.GitRepo.ParseTreeLine | git-graph.py:104-114 | An empty line succeeds and changes nothing. A malformed line fails with that line. A `tree` line succeeds exactly when its subtree resolves, and adds its hash. An uncached subtree is cached under the name the line gives, and the blob table changes only at blobs of the trees it caches. A `blob` line adds its hash and sets the blob table at that hash to `Blob(hash, name)`, leaving the cache and the indices alone. A line of any other type succeeds and changes nothing. Errors are a missing hash or a malformed stored line. The invariant is kept. A `tree` line whose subtree is already cached changes nothing. On success, a `tree` line caches only trees that `tree` lines lead to from its own subtree. Every cached tree keeps the name `/` or a name a `tree` line gives it. |
| GitGraph.GitRepo.GetCommit | git-graph.py:65-72 | Succeeds exactly when the hash is cached or the commit can be fetched, and every error is justified. A cached hash returns its object unchanged. A missing object fails with its name, and a commit without a `tree` line fails with `None`. On success the commit parsed from the store is cached, its tree is resolved and recorded, and the invariant is kept. Only the commit and trees under its tree are added, and the blob table changes only at blobs that those trees list. A root tree that was not cached before is cached under `/`. Every cached tree keeps the name `/` or a name a `tree` line gives it. |
| GitGraph.GitRepo.FetchCommit | git-graph.py:66-71 | For an uncached hash, succeeds exactly when the commit can be fetched, with the same errors. On success the parsed commit is cached and its tree is recorded. Only the commit and trees under its tree are added, and the blob table changes only at blobs of the added trees. A root tree that was not cached before is cached under `/`. Every cached tree keeps the name `/` or a name a `tree` line gives it. |
| GitGraph.GitRepo.RecordTree | git-graph.py:70-71 | Once the commit is cached, succeeds exactly when it has a `tree` line whose tree resolves; without one it fails with `None`. On success the tree is recorded for the commit. Only trees under it are added, and the blob table changes only at blobs of the added trees. The tree is resolved under the name `/`: if it was not cached before, it is cached as the tree parsed from its text under `/`. Every cached tree keeps the name `/` or a name a `tree` line gives it. |
| GitGraph.GitRepo.TraverseHistory | git-graph.py:54-62 | An entered hash changes nothing. Otherwise the walk succeeds whenever every ancestor of the hash can be taken, and every error is justified; a missing object or a cached tree fails. On success the commit's walk is finished and every newly entered commit is an ancestor of the hash. Every newly cached object is such a commit or a tree under its tree, the blob table changes only at blobs of the newly cached trees, and the edges of commits further up are untouched. Every cached tree keeps the name `/` or a name a `tree` line gives it. |
| GitGraph.GitRepo.ParentsOf | git-graph.py:58-59 | Succeeds exactly when the hash is cached as a commit, or is uncached and the commit can be fetched. It leaves the history takeable whenever the history from the hash can be taken. A missing object fails with its name and a hash cached as a tree with `NotACommit`. On success it returns the parents the store records. Only the commit and trees under its tree are added, and the blob table changes only at blobs of the added trees. Every cached tree keeps the name `/` or a name a `tree` line gives it. |
| GitGraph.GitRepo.WalkParents | git-graph.py:59-62 | Succeeds whenever the commit's history can be taken, and every error is justified. Afterwards the commit's parent edges are its parents, deduplicated and in order, every parent is entered, and the commit is finished. Only ancestors of the commit were entered, and the blob table changed only at blobs of the newly cached trees. Every cached tree keeps the name `/` or a name a `tree` line gives it. |
| GitGraph.GitRepo.TakeParent | git-graph.py:59-62 | One turn of the parent loop: succeeds whenever the commit's history can be taken, and then keeps every invariant of the loop for one more parent. Every cached tree keeps the name `/` or a name a `tree` line gives it. |
| GitGraph.GitRepo.WalkParent | git-graph.py:60-62 | Succeeds whenever the parent's history can be taken. One turn records the edge to the parent and walks it, so the parent ends up entered. Only its ancestors were entered, and the blob table changed only at blobs of the newly cached trees. Every cached tree keeps the name `/` or a name a `tree` line gives it. |
| GitGraph.GitRepo.ParseDotGitDir | git-graph.py:41-45 | `branches` is the branch list. The run succeeds whenever every tip's history can be taken, and every error is justified. On success the branch table records each branch's tip, every tip is entered, and the entered set is closed under parents, so it holds every ancestor of every tip. Every newly entered commit is an ancestor of some tip, and every newly cached object comes from such a commit. The blob table changes only at blobs of the newly cached trees, and afterwards holds exactly the blobs the cached trees list. The whole invariant holds, so every cached tree is named `/` or carries a name a `tree` line gives its hash. |
| GitGraph.GitRepo.TakeBranch | git-graph.py:43-45 | One turn of the branch loop: records the branch's tip, succeeds whenever every tip's history can be taken, and then keeps every invariant of the loop for one more branch. Every cached tree keeps the name `/` or a name a `tree` line gives it. |

## Left out

- Graph rendering (`GraphGenerator`, git-graph.py:142-192) is not part of this model. It only reads the indices this model builds.
- Running `git` (`run_command`) and decoding its output as UTF-8 are not modelled. The object store is a map from object names to their already decoded text.
- `list_branches` and `read_txt` (git-graph.py:48-51, 131-133) read the `refs/heads` directory. `ParseDotGitDir` takes the resulting list of branches as a parameter.
- `check_dependencies`, `get_git_repo_path`, `parse_git_repo` and the command-line entry point (git-graph.py:194-235) are not modelled: they handle the environment and arguments only.
- `traverse_history`'s `visited` defaults to one set shared by every call of the program. The model keeps it as a field of the repository. Within one `parse_dot_git_dir` run the behaviour is the same, but sharing across repositories is not modelled.
- `GitGraph.GitRepo.TraverseHistory`, `GitGraph.GitRepo.GetTree` and `GitGraph.GitRepo.ParseTree`: the source recurses once per commit along a parent chain (git-graph.py:62) and once per tree level (git-graph.py:93, 110). CPython stops such recursion at its frame limit (1000 by default) with a `RecursionError`. The model has no such limit, so it succeeds on a history or a tree deep enough to make the source fail.
- `GitGraph.GitRepo.GetTree`: termination rests on a ghost ranking of the store (`TreeRanked`), which the constructor requires. The source has no such guard. It recurses without end, until Python's recursion limit, only on a tree cycle that the walk actually reaches. `TreeRanked` rules out more: it also excludes stores with cycles the walk never reaches, and cycles named only on lines after a malformed line. Such stores are outside the model.
- `GitGraph.GitRepo.GetCommit`: a commit without a `tree` line fails with `ObjectNotFound("None")` without consulting the store. The source asks `git cat-file` for `None`, which the model assumes is never an object name.
- `GitGraph.GitRepo.TraverseHistory`, `GitGraph.GitRepo.WalkParents`, `GitGraph.GitRepo.TakeParent`, `GitGraph.GitRepo.WalkParent`, `GitGraph.GitRepo.ParseDotGitDir` and `GitGraph.GitRepo.TakeBranch`: the success condition (`HistoryResolves`, `TipsResolve`) is sufficient, not necessary. A commit already entered is skipped, so the walk can also succeed when it is not met.
- `GitGraph.GitRepo.TraverseHistory` and `GitGraph.GitRepo.ParseDotGitDir`: the success condition asks that the text of each uncached commit on the way does not parse as a tree (`CommitResolves`). This rules out the walk finding a commit already cached as a tree by an earlier `get_tree`. A real commit text never parses as a tree, because its two-field `tree` line is malformed as a tree entry. A store with such a commit text is not covered by the guarantee.
- `GitGraph.GitRepo.GetTree`, `GitGraph.GitRepo.GetCommit`, `GitGraph.GitRepo.ParseTree`, `GitGraph.GitRepo.TraverseHistory` and `GitGraph.GitRepo.ParseDotGitDir`: after a failure the contracts pin the exact error only in four cases: a hash the store lacks, a commit without a `tree` line, a hash cached as a tree where a commit is expected, and a line that is itself malformed. Otherwise they say only that the error is justified (`TreeError` for tree resolution, `Justified` for commits and the walk), not which missing object or which malformed line the source meets first. The partial state left behind, and the bounds on what was entered and cached, are stated only on success, because the source aborts the whole run on any exception.
- `GitGraph.GitRepo.ParseTree`, `GitGraph.GitRepo.GetTree` and `GitGraph.AddBlob`: each `blob` line records `Blob(hash, name)` under its hash (ParseTreeLine states this). When two lines, in one tree or in different trees, name the same blob hash, the later line's name wins, as in the source. The contracts of ParseTree and GetTree bound which hashes the blob table may gain or change (`BlobsWithin`), but do not say which line's name it finally holds at each.
- `GitGraph.GitRepo.GetTree`, `GitGraph.GitRepo.FetchTree`, `GitGraph.GitRepo.GetCommit`, `GitGraph.GitRepo.FetchCommit`, `GitGraph.GitRepo.RecordTree`, `GitGraph.GitRepo.TraverseHistory`, `GitGraph.GitRepo.ParentsOf`, `GitGraph.GitRepo.WalkParents`, `GitGraph.GitRepo.WalkParent`, `GitGraph.GitRepo.TakeParent`, `GitGraph.GitRepo.ParseDotGitDir` and `GitGraph.GitRepo.TakeBranch`: for a subtree cached below the tree or root they resolve, the contracts say only that its name is `/` or the name some `tree` line of the store gives its hash (`TreesNamed`). They do not say it is the name on the line that first reached it (git-graph.py:110), which only ParseTreeLine states, line by line. `GetCommit` and `FetchCommit` state the root's name `/` only when the root hash differs from the commit's own hash.
- `GitGraph.GitRepo.AddToMultimap`: the source mutates the dictionary it receives. The model returns the updated map and the caller stores it back, which has the same effect because each index is only reachable through its field.
- The loop bodies of `parse_tree` and `traverse_history`, the two `get_tree` loops, and stretches of `get_commit` and `traverse_history` are separate methods in the model: `ParseTreeLine`, `WalkParent`, `WalkParents`, `FetchTree`, `CacheTree`, `AddEachToMultimap`, `FetchCommit`, `RecordTree` and `ParentsOf`; one turn of the parent loop and of the branch loop are `TakeParent` and `TakeBranch`. They perform the same steps in the same order. `TakeTreeLine` calls `ParseTreeLine` and passes on only the part of its contract that the loop of `ParseTree` needs.
- `GitGraph.GitRepo.TakeTreeLine`: passes on the line's outcome, the invariant and the bounds on the trees cached and the blob table, but not ParseTreeLine's per-type effects: the exact blob entry a `blob` line writes, the unchanged state after an empty line, an other line or a `tree` line whose subtree is cached, the name an uncached subtree is cached under, and the bound on the trees one `tree` line caches. So `ParseTree` does not state these per line; it keeps only the invariant that every cached tree is named `/` or by some `tree` line (`TreesNamed`).
