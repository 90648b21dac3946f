/** The Git object records of git-graph.py (the named tuples Branch, Commit, Tree
    and Blob), the cache entries built from them, and the failures that abort a run. */
module Objects {

  /** An object name as the object store accepts it (a hex digest in practice). */
  type Hash = string

  datatype Option<+T> = None | Some(value: T)

  datatype Result<+T, +E> = Ok(value: T) | Err(error: E) {
    predicate IsFailure() { Err? }
    function PropagateFailure<U>(): Result<U, E>
      requires Err?
    {
      Err(error)
    }
    function Extract(): T
      requires Ok?
    {
      value
    }
  }

  /** The exceptions that end a run of the script. */
  datatype Error =
    | ObjectNotFound(hash: Hash)       // the object store has no object of that name
    | MalformedTreeEntry(line: string) // a tree line that does not split into four fields
    | NotACommit(hash: Hash)           // the ancestry walk reached a hash cached as a tree

  /** The name the script asks the object store for when a commit had no `tree` line. */
  const NoTreeName: Hash := "None"

  /** The name a commit's root tree is resolved under (the default of `get_tree`). */
  const RootName: string := "/"

  datatype Branch = Branch(name: string, commit: Hash)

  /** Only the graph-relevant fields of a commit; `tree` is absent when the
      commit text has no `tree` line. */
  datatype Commit = Commit(hash: Hash, tree: Option<Hash>, parents: seq<Hash>)

  datatype Tree = Tree(hash: Hash, name: string, trees: seq<Hash>, blobs: seq<Hash>)

  datatype Blob = Blob(hash: Hash, name: string)

  /** What the object cache maps a hash to. */
  datatype Object = CommitObject(commit: Commit) | TreeObject(tree: Tree) {
    /** The `hash` field the two records share. */
    function Id(): Hash
    {
      match this
      case CommitObject(c) => c.hash
      case TreeObject(t) => t.hash
    }
  }
}
