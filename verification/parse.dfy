/** What `parse_commit` and `parse_tree` of git-graph.py extract from the text
    `git cat-file -p` prints for an object, stated line by line. The methods that
    run the two loops (GitRepo.ParseCommit, GitRepo.ParseTree) are proved against
    these functions. */
module Parse {
  import opened Text
  import opened Objects

  // ---------------------------------------------------------------------------
  // Commits

  /** The value a commit line gives the field `key`: its second field, when the
      line is non-empty, has at least two fields and the first one is `key`. */
  function FieldValue(line: string, key: string): (v: Option<string>)
    ensures v.Some? <==> |Tokens(line)| >= 2 && Tokens(line)[0] == key
    ensures v.Some? ==> v.value == Tokens(line)[1] && IsWord(v.value)
  {
    var parts := Tokens(line);
    if line == "" || |parts| < 2 || parts[0] != key then None else Some(parts[1])
  }

  /** The `tree` field: the one given by the last `tree` line. */
  function TreeField(lines: seq<string>): (t: Option<Hash>)
    ensures t.Some? ==> IsWord(t.value)
    decreases |lines|
  {
    if lines == [] then None
    else match FieldValue(lines[|lines| - 1], "tree")
      case Some(t) => Some(t)
      case None => TreeField(lines[..|lines| - 1])
  }

  /** The `parent` fields, one per `parent` line, in line order. */
  function ParentFields(lines: seq<string>): (ps: seq<Hash>)
    ensures |ps| <= |lines|
    ensures forall i :: 0 <= i < |ps| ==> IsWord(ps[i])
    decreases |lines|
  {
    if lines == [] then []
    else
      ParentFields(lines[..|lines| - 1]) +
      match FieldValue(lines[|lines| - 1], "parent")
      case Some(p) => [p]
      case None => []
  }

  /** The commit record the script builds from the text of a commit object. */
  function CommitOf(hash: Hash, content: string): (c: Commit)
    ensures c.hash == hash
    ensures c.tree.Some? ==> IsWord(c.tree.value)
    ensures |c.parents| <= |SplitLines(content)|
    ensures forall i :: 0 <= i < |c.parents| ==> IsWord(c.parents[i])
  {
    var lines := SplitLines(content);
    Commit(hash, TreeField(lines), ParentFields(lines))
  }

  /** A line that is neither a `tree` nor a `parent` line (empty, a single field,
      author, committer, message, signature, ...). */
  predicate IgnoredCommitLine(line: string)
  {
    FieldValue(line, "tree") == None && FieldValue(line, "parent") == None
  }

  /** Parent lines accumulate in order: parsing two runs of lines one after the
      other gives the parents of the first run followed by those of the second. */
  lemma {:induction false} ParentFieldsAppend(a: seq<string>, b: seq<string>)
    ensures ParentFields(a + b) == ParentFields(a) + ParentFields(b)
    decreases |b|
  {
    if b != [] {
      var b' := b[..|b| - 1];
      assert (a + b)[..|a + b| - 1] == a + b';
      assert (a + b)[|a + b| - 1] == b[|b| - 1];
      ParentFieldsAppend(a, b');
    } else {
      assert a + b == a;
    }
  }

  /** The last `tree` line wins: a later run of lines that has one overrides
      everything before it, one that has none leaves the earlier value. */
  lemma {:induction false} TreeFieldAppend(a: seq<string>, b: seq<string>)
    ensures TreeField(a + b) == if TreeField(b).Some? then TreeField(b) else TreeField(a)
    decreases |b|
  {
    if b != [] {
      var b' := b[..|b| - 1];
      assert (a + b)[..|a + b| - 1] == a + b';
      assert (a + b)[|a + b| - 1] == b[|b| - 1];
      TreeFieldAppend(a, b');
    } else {
      assert a + b == a;
    }
  }

  /** A hash is a parent exactly when some line is a `parent` line naming it. */
  lemma {:induction false} ParentFieldsMembers(lines: seq<string>, p: Hash)
    ensures p in ParentFields(lines) <==>
            exists i :: 0 <= i < |lines| && FieldValue(lines[i], "parent") == Some(p)
    decreases |lines|
  {
    if lines != [] {
      var init := lines[..|lines| - 1];
      ParentFieldsMembers(init, p);
      if p in ParentFields(lines) && p !in ParentFields(init) {
        assert FieldValue(lines[|lines| - 1], "parent") == Some(p);
      }
      if exists i :: 0 <= i < |lines| && FieldValue(lines[i], "parent") == Some(p) {
        var i :| 0 <= i < |lines| && FieldValue(lines[i], "parent") == Some(p);
        if i < |lines| - 1 {
          assert init[i] == lines[i];
        }
      }
      forall i | 0 <= i < |init| ensures init[i] == lines[i] { }
    }
  }

  /** The tree field is absent exactly when no line is a `tree` line. */
  lemma {:induction false} TreeFieldAbsent(lines: seq<string>)
    ensures TreeField(lines) == None <==>
            forall i :: 0 <= i < |lines| ==> FieldValue(lines[i], "tree") == None
    decreases |lines|
  {
    if lines != [] {
      var init := lines[..|lines| - 1];
      TreeFieldAbsent(init);
      forall i | 0 <= i < |init| ensures init[i] == lines[i] { }
    }
  }

  /** A present tree field is the value of a `tree` line after which none follows. */
  lemma {:induction false} TreeFieldIsLast(lines: seq<string>)
    requires TreeField(lines).Some?
    ensures exists i :: 0 <= i < |lines| && FieldValue(lines[i], "tree") == TreeField(lines) &&
                        forall j :: i < j < |lines| ==> FieldValue(lines[j], "tree") == None
    decreases |lines|
  {
    var last := |lines| - 1;
    if FieldValue(lines[last], "tree") == None {
      var init := lines[..last];
      assert TreeField(lines) == TreeField(init);
      TreeFieldIsLast(init);
      var i :| 0 <= i < |init| && FieldValue(init[i], "tree") == TreeField(init) &&
               forall j :: i < j < |init| ==> FieldValue(init[j], "tree") == None;
      NoTreeLineAfter(lines, init, i);
    } else {
      assert FieldValue(lines[last], "tree") == TreeField(lines);
    }
  }

  /** A final line that is not a `tree` line keeps a `tree` line the last one. */
  lemma NoTreeLineAfter(lines: seq<string>, init: seq<string>, i: nat)
    requires lines != [] && init == lines[..|lines| - 1] && i < |init|
    requires FieldValue(lines[|lines| - 1], "tree") == None
    requires forall j :: i < j < |init| ==> FieldValue(init[j], "tree") == None
    ensures lines[i] == init[i]
    ensures forall j :: i < j < |lines| ==> FieldValue(lines[j], "tree") == None
  {
    forall j | i < j < |lines| ensures FieldValue(lines[j], "tree") == None {
      if j < |init| {
        assert init[j] == lines[j];
      }
    }
  }

  /** Lines other than `tree` and `parent` lines change nothing, wherever they
      stand: not the tree field ... */
  lemma {:induction false} IgnoredLinesKeepTree(a: seq<string>, ignored: seq<string>, b: seq<string>)
    requires forall i :: 0 <= i < |ignored| ==> IgnoredCommitLine(ignored[i])
    ensures TreeField(a + ignored + b) == TreeField(a + b)
  {
    NoFieldsInIgnored(ignored);
    TreeFieldAppend(a + ignored, b);
    TreeFieldAppend(a, ignored);
    TreeFieldAppend(a, b);
  }

  /** ... and not the parents. */
  lemma {:induction false} IgnoredLinesKeepParents(a: seq<string>, ignored: seq<string>, b: seq<string>)
    requires forall i :: 0 <= i < |ignored| ==> IgnoredCommitLine(ignored[i])
    ensures ParentFields(a + ignored + b) == ParentFields(a + b)
  {
    NoFieldsInIgnored(ignored);
    ParentFieldsAppend(a + ignored, b);
    ParentFieldsAppend(a, ignored);
    ParentFieldsAppend(a, b);
  }

  lemma {:induction false} NoFieldsInIgnored(ignored: seq<string>)
    requires forall i :: 0 <= i < |ignored| ==> IgnoredCommitLine(ignored[i])
    ensures TreeField(ignored) == None && ParentFields(ignored) == []
    decreases |ignored|
  {
    if ignored != [] {
      NoFieldsInIgnored(ignored[..|ignored| - 1]);
    }
  }

  /** A commit text without `parent` lines is a root commit (no parents); one
      without `tree` lines yields a commit whose tree is absent. */
  lemma RootCommit(hash: Hash, content: string)
    ensures (forall i :: 0 <= i < |SplitLines(content)| ==>
               FieldValue(SplitLines(content)[i], "parent") == None)
            ==> CommitOf(hash, content).parents == []
    ensures (forall i :: 0 <= i < |SplitLines(content)| ==>
               FieldValue(SplitLines(content)[i], "tree") == None)
            ==> CommitOf(hash, content).tree == None
  {
    var lines := SplitLines(content);
    TreeFieldAbsent(lines);
    if ParentFields(lines) != [] {
      ParentFieldsMembers(lines, ParentFields(lines)[0]);
    }
  }

  lemma KeywordsAreWords()
    ensures IsWord("tree") && IsWord("parent") && IsWord("blob")
    ensures IsWord("author") && IsWord("committer")
  {
  }

  /** The fields of a line built from words. */
  lemma LineOfWords(ws: seq<string>)
    requires |ws| >= 1
    requires forall i :: 0 <= i < |ws| ==> IsWord(ws[i])
    ensures '\n' !in Unwords(ws)
    ensures FieldValue(Unwords(ws), "tree") == (if |ws| >= 2 && ws[0] == "tree" then Some(ws[1]) else None)
    ensures FieldValue(Unwords(ws), "parent") == (if |ws| >= 2 && ws[0] == "parent" then Some(ws[1]) else None)
  {
    TokensUnwords(ws);
    UnwordsHasNoNewline(ws);
  }

  /** A single line gives its own tree and parent values. */
  lemma OneLine(l: string)
    ensures TreeField([l]) == FieldValue(l, "tree")
    ensures ParentFields([l]) == if FieldValue(l, "parent").Some? then [FieldValue(l, "parent").value] else []
  {
    assert [l][..0] == [];
  }

  /** Five lines, a `tree` line, two `parent` lines and two others, in that order. */
  lemma {:induction false} FiveLineCommit(hash: Hash, t: Hash, p1: Hash, p2: Hash,
                                          l0: string, l1: string, l2: string, l3: string, l4: string)
    requires '\n' !in l0 && '\n' !in l1 && '\n' !in l2 && '\n' !in l3 && '\n' !in l4
    requires FieldValue(l0, "tree") == Some(t) && FieldValue(l0, "parent") == None
    requires FieldValue(l1, "tree") == None && FieldValue(l1, "parent") == Some(p1)
    requires FieldValue(l2, "tree") == None && FieldValue(l2, "parent") == Some(p2)
    requires IgnoredCommitLine(l3) && IgnoredCommitLine(l4)
    ensures CommitOf(hash, JoinLines([l0, l1, l2, l3, l4])) == Commit(hash, Some(t), [p1, p2])
  {
    var lines := [l0, l1, l2, l3, l4];
    SplitJoinLines(lines);
    var front := [l0, l1, l2];
    var rest := [l3, l4];
    assert front + rest + [] == lines;
    IgnoredLinesKeepTree(front, rest, []);
    IgnoredLinesKeepParents(front, rest, []);
    assert front + [] == front;
    ThreeLineFields(t, p1, p2, l0, l1, l2);
  }

  /** A `tree` line and two `parent` lines give that tree and those parents, in order. */
  lemma ThreeLineFields(t: Hash, p1: Hash, p2: Hash, l0: string, l1: string, l2: string)
    requires FieldValue(l0, "tree") == Some(t) && FieldValue(l0, "parent") == None
    requires FieldValue(l1, "tree") == None && FieldValue(l1, "parent") == Some(p1)
    requires FieldValue(l2, "tree") == None && FieldValue(l2, "parent") == Some(p2)
    ensures TreeField([l0, l1, l2]) == Some(t) && ParentFields([l0, l1, l2]) == [p1, p2]
  {
    OneLine(l0);
    OneLine(l1);
    OneLine(l2);
    TreeFieldAppend([l0], [l1]);
    ParentFieldsAppend([l0], [l1]);
    assert [l0] + [l1] == [l0, l1];
    TreeFieldAppend([l0, l1], [l2]);
    ParentFieldsAppend([l0, l1], [l2]);
    assert [l0, l1] + [l2] == [l0, l1, l2];
  }

  /** The first field of a line of words is a keyword other than `tree` and `parent`. */
  lemma OtherKeywordLine(k: string, ws: seq<string>)
    requires k == "author" || k == "committer"
    requires IsWord(k) && forall i :: 0 <= i < |ws| ==> IsWord(ws[i])
    ensures '\n' !in Unwords([k] + ws) && IgnoredCommitLine(Unwords([k] + ws))
  {
    assert k != "tree" && k != "parent" by {
      assert "author"[0] != "parent"[0];
    }
    LineOfWords([k] + ws);
  }

  /** Only the tree and the parents survive parsing: a commit text with `tree t`, `parent p1`,
      `parent p2`, an author and a committer line parses to tree t and
      parents [p1, p2], in that order, and keeps nothing else. */
  lemma CommitFieldNarrowing(hash: Hash, t: Hash, p1: Hash, p2: Hash,
                             author: seq<string>, committer: seq<string>)
    requires IsWord(t) && IsWord(p1) && IsWord(p2)
    requires forall i :: 0 <= i < |author| ==> IsWord(author[i])
    requires forall i :: 0 <= i < |committer| ==> IsWord(committer[i])
    ensures CommitOf(hash, JoinLines([Unwords(["tree", t]), Unwords(["parent", p1]),
                                      Unwords(["parent", p2]), Unwords(["author"] + author),
                                      Unwords(["committer"] + committer)]))
            == Commit(hash, Some(t), [p1, p2])
  {
    KeywordsAreWords();
    LineOfWords(["tree", t]);
    LineOfWords(["parent", p1]);
    LineOfWords(["parent", p2]);
    OtherKeywordLine("author", author);
    OtherKeywordLine("committer", committer);
    FiveLineCommit(hash, t, p1, p2, Unwords(["tree", t]), Unwords(["parent", p1]),
                   Unwords(["parent", p2]), Unwords(["author"] + author),
                   Unwords(["committer"] + committer));
  }

  // ---------------------------------------------------------------------------
  // Trees

  /** One line of a tree object: `mode type hash name`. */
  datatype Entry = Entry(mode: string, kind: string, hash: Hash, name: string)

  /** The entries of a tree text: empty lines are skipped and every other line
      must split into exactly four fields; the first line that does not is the error. */
  function ParseEntries(lines: seq<string>): (r: Result<seq<Entry>, Error>)
    ensures r.Ok? ==> |r.value| <= |lines|
    ensures r.Ok? ==> forall k :: 0 <= k < |r.value| ==> EntryOfFields(r.value[k])
    ensures r.Err? ==> r.error.MalformedTreeEntry? && Malformed(r.error.line) && r.error.line in lines
    decreases |lines|
  {
    if lines == [] then Ok([])
    else match ParseEntries(lines[..|lines| - 1])
      case Err(e) => Err(e)
      case Ok(es) =>
        var line := lines[|lines| - 1];
        var parts := Tokens(line);
        if line == "" then Ok(es)
        else if |parts| != 4 then Err(MalformedTreeEntry(line))
        else Ok(es + [Entry(parts[0], parts[1], parts[2], parts[3])])
  }

  /** Every field of an entry is a single word. */
  predicate EntryOfFields(e: Entry)
  {
    IsWord(e.mode) && IsWord(e.kind) && IsWord(e.hash) && IsWord(e.name)
  }

  /** A line the tree parser rejects. */
  predicate Malformed(line: string)
  {
    line != "" && |Tokens(line)| != 4
  }

  /** The hashes of the `tree` entries, in order. */
  function SubtreesOf(es: seq<Entry>): (ts: seq<Hash>)
    ensures |ts| <= |es|
    decreases |es|
  {
    if es == [] then []
    else SubtreesOf(es[..|es| - 1]) +
         (if es[|es| - 1].kind == "tree" then [es[|es| - 1].hash] else [])
  }

  /** The hashes of the `blob` entries, in order. */
  function BlobsOf(es: seq<Entry>): (bs: seq<Hash>)
    ensures |bs| <= |es|
    decreases |es|
  {
    if es == [] then []
    else BlobsOf(es[..|es| - 1]) +
         (if es[|es| - 1].kind == "blob" then [es[|es| - 1].hash] else [])
  }

  /** The tree record the script builds from a tree's entries. */
  function TreeOf(hash: Hash, name: string, es: seq<Entry>): (t: Tree)
    ensures t.hash == hash && t.name == name
    ensures |t.trees| + |t.blobs| <= |es|
  {
    EntriesCounted(es);
    Tree(hash, name, SubtreesOf(es), BlobsOf(es))
  }

  /** A tree text fails to parse exactly when one of its lines is malformed. */
  lemma {:induction false} ParseEntriesFails(lines: seq<string>)
    ensures ParseEntries(lines).Err? <==> exists i :: 0 <= i < |lines| && Malformed(lines[i])
    decreases |lines|
  {
    if lines != [] {
      var init := lines[..|lines| - 1];
      ParseEntriesFails(init);
      assert ParseEntries(lines).Err? <==> ParseEntries(init).Err? || Malformed(lines[|lines| - 1]);
      SomeMalformed(lines, init);
    }
  }

  /** A malformed line is one of the first lines or the last one. */
  lemma SomeMalformed(lines: seq<string>, init: seq<string>)
    requires lines != [] && init == lines[..|lines| - 1]
    ensures (exists i :: 0 <= i < |lines| && Malformed(lines[i])) <==>
            (exists i :: 0 <= i < |init| && Malformed(init[i])) || Malformed(lines[|lines| - 1])
  {
    forall i | 0 <= i < |init| ensures init[i] == lines[i] { }
  }

  /** A failed parse names the first malformed line. */
  lemma {:induction false} ParseEntriesFirstError(lines: seq<string>)
    requires ParseEntries(lines).Err?
    ensures exists i :: 0 <= i < |lines| && Malformed(lines[i]) &&
                        ParseEntries(lines) == Err(MalformedTreeEntry(lines[i])) &&
                        forall j :: 0 <= j < i ==> !Malformed(lines[j])
    decreases |lines|
  {
    var init := lines[..|lines| - 1];
    var last := |lines| - 1;
    if ParseEntries(init).Err? {
      ParseEntriesFirstError(init);
      var i :| 0 <= i < |init| && Malformed(init[i]) &&
               ParseEntries(init) == Err(MalformedTreeEntry(init[i])) &&
               forall j :: 0 <= j < i ==> !Malformed(init[j]);
      forall j | 0 <= j <= i ensures init[j] == lines[j] { }
    } else {
      ParseEntriesFails(init);
      forall j | 0 <= j < last ensures !Malformed(lines[j]) {
        assert init[j] == lines[j];
      }
      assert Malformed(lines[last]);
    }
  }

  /** Parsing is line by line: after a run of lines that parses, the entries of
      the following lines are appended in order (or their error is the result). */
  lemma {:induction false} ParseEntriesAppend(a: seq<string>, b: seq<string>)
    requires ParseEntries(a).Ok?
    ensures ParseEntries(a + b) ==
            match ParseEntries(b)
            case Ok(eb) => Ok(ParseEntries(a).value + eb)
            case Err(e) => Err(e)
    decreases |b|
  {
    if b == [] {
      assert a + b == a;
      assert ParseEntries(a).value + [] == ParseEntries(a).value;
    } else {
      var b' := b[..|b| - 1];
      assert (a + b)[..|a + b| - 1] == a + b';
      assert (a + b)[|a + b| - 1] == b[|b| - 1];
      ParseEntriesAppend(a, b');
      if ParseEntries(b').Ok? {
        var ea, eb := ParseEntries(a).value, ParseEntries(b').value;
        var parts := Tokens(b[|b| - 1]);
        if b[|b| - 1] != "" && |parts| == 4 {
          assert ea + eb + [Entry(parts[0], parts[1], parts[2], parts[3])] ==
                 ea + (eb + [Entry(parts[0], parts[1], parts[2], parts[3])]);
        }
      }
    }
  }

  /** The first lines of a text that parses parse too, and their subtrees are
      subtrees of the whole text. */
  lemma SubtreesOfPrefix(lines: seq<string>, n: nat)
    requires n <= |lines| && ParseEntries(lines).Ok?
    ensures ParseEntries(lines[..n]).Ok?
    ensures forall c :: c in SubtreesOf(ParseEntries(lines[..n]).value) ==> c in SubtreesOf(ParseEntries(lines).value)
  {
    ParseEntriesFails(lines);
    ParseEntriesFails(lines[..n]);
    assert forall i :: 0 <= i < n ==> lines[..n][i] == lines[i];
    assert lines[..n] + lines[n..] == lines;
    ParseEntriesAppend(lines[..n], lines[n..]);
    SubtreesAppend(ParseEntries(lines[..n]).value, ParseEntries(lines[n..]).value);
  }

  /** One line on its own: an empty line gives no entry, a four-field line one
      entry holding its fields in order. */
  lemma ParseEntriesLine(line: string)
    ensures line == "" ==> ParseEntries([line]) == Ok([])
    ensures !Malformed(line) && line != "" ==>
            var p := Tokens(line);
            ParseEntries([line]) == Ok([Entry(p[0], p[1], p[2], p[3])])
  {
    assert [line][..0] == [];
    assert ParseEntries([line][..0]) == Ok([]);
    var p := Tokens(line);
    if line != "" && |p| == 4 {
      assert [] + [Entry(p[0], p[1], p[2], p[3])] == [Entry(p[0], p[1], p[2], p[3])];
    }
  }

  lemma {:induction false} SubtreesAppend(a: seq<Entry>, b: seq<Entry>)
    ensures SubtreesOf(a + b) == SubtreesOf(a) + SubtreesOf(b)
    ensures BlobsOf(a + b) == BlobsOf(a) + BlobsOf(b)
    decreases |b|
  {
    if b == [] {
      assert a + b == a;
    } else {
      var b' := b[..|b| - 1];
      assert (a + b)[..|a + b| - 1] == a + b';
      assert (a + b)[|a + b| - 1] == b[|b| - 1];
      SubtreesAppend(a, b');
    }
  }

  /** `tree` entries and only they go to the subtree list ... */
  lemma {:induction false} SubtreesRouted(es: seq<Entry>, h: Hash)
    ensures h in SubtreesOf(es) <==> exists k :: 0 <= k < |es| && es[k].kind == "tree" && es[k].hash == h
    decreases |es|
  {
    if es != [] {
      var init := es[..|es| - 1];
      SubtreesRouted(init, h);
      if exists k :: 0 <= k < |es| && es[k].kind == "tree" && es[k].hash == h {
        var k :| 0 <= k < |es| && es[k].kind == "tree" && es[k].hash == h;
        if k < |init| { assert init[k] == es[k]; }
      }
      if exists k :: 0 <= k < |init| && init[k].kind == "tree" && init[k].hash == h {
        var k :| 0 <= k < |init| && init[k].kind == "tree" && init[k].hash == h;
        assert init[k] == es[k];
      }
    }
  }

  /** ... and `blob` entries and only they to the blob list. */
  lemma {:induction false} BlobsRouted(es: seq<Entry>, h: Hash)
    ensures h in BlobsOf(es) <==> exists k :: 0 <= k < |es| && es[k].kind == "blob" && es[k].hash == h
    decreases |es|
  {
    if es != [] {
      var init := es[..|es| - 1];
      BlobsRouted(init, h);
      if exists k :: 0 <= k < |es| && es[k].kind == "blob" && es[k].hash == h {
        var k :| 0 <= k < |es| && es[k].kind == "blob" && es[k].hash == h;
        if k < |init| { assert init[k] == es[k]; }
      }
      if exists k :: 0 <= k < |init| && init[k].kind == "blob" && init[k].hash == h {
        var k :| 0 <= k < |init| && init[k].kind == "blob" && init[k].hash == h;
        assert init[k] == es[k];
      }
    }
  }

  /** Each entry lands in at most one of the two lists, and entries of any
      other type land in neither. */
  lemma {:induction false} EntriesCounted(es: seq<Entry>)
    ensures |SubtreesOf(es)| + |BlobsOf(es)| == |es| - |OtherKinds(es)|
    decreases |es|
  {
    if es != [] {
      EntriesCounted(es[..|es| - 1]);
    }
  }

  /** The entries of a type other than `tree` and `blob`. */
  function OtherKinds(es: seq<Entry>): (others: seq<Entry>)
    ensures |others| <= |es|
    decreases |es|
  {
    if es == [] then []
    else
      var e := es[|es| - 1];
      OtherKinds(es[..|es| - 1]) + (if e.kind != "tree" && e.kind != "blob" then [e] else [])
  }

  /** A line of four words is the entry holding them, in order. */
  lemma EntryOfWords(mode: string, kind: string, h: Hash, name: string)
    requires IsWord(mode) && IsWord(kind) && IsWord(h) && IsWord(name)
    ensures ParseEntries([Unwords([mode, kind, h, name])]) == Ok([Entry(mode, kind, h, name)])
  {
    var line := Unwords([mode, kind, h, name]);
    TokensUnwords([mode, kind, h, name]);
    assert line != "";
    ParseEntriesLine(line);
  }

  /** A single entry goes to the list its type selects. */
  lemma SingleEntry(e: Entry)
    ensures SubtreesOf([e]) == (if e.kind == "tree" then [e.hash] else [])
    ensures BlobsOf([e]) == (if e.kind == "blob" then [e.hash] else [])
  {
    assert [e][..0] == [];
  }

  /** The parser does not keep the two lists disjoint: a tree text naming the
      same hash once as `tree` and once as `blob` puts it in both. */
  lemma SameHashInBothLists(m1: string, m2: string, h: Hash, n1: string, n2: string)
    requires IsWord(m1) && IsWord(m2) && IsWord(h) && IsWord(n1) && IsWord(n2)
    ensures var es := ParseEntries([Unwords([m1, "tree", h, n1]), Unwords([m2, "blob", h, n2])]);
            es.Ok? && SubtreesOf(es.value) == [h] && BlobsOf(es.value) == [h]
  {
    KeywordsAreWords();
    var l1, l2 := Unwords([m1, "tree", h, n1]), Unwords([m2, "blob", h, n2]);
    var e1, e2 := Entry(m1, "tree", h, n1), Entry(m2, "blob", h, n2);
    EntryOfWords(m1, "tree", h, n1);
    EntryOfWords(m2, "blob", h, n2);
    TwoLines(l1, l2, e1, e2);
    TwoEntries(e1, e2);
  }

  /** Two lines that parse on their own parse together to both entries, in order. */
  lemma TwoLines(l1: string, l2: string, e1: Entry, e2: Entry)
    requires ParseEntries([l1]) == Ok([e1]) && ParseEntries([l2]) == Ok([e2])
    ensures ParseEntries([l1, l2]) == Ok([e1, e2])
  {
    ParseEntriesAppend([l1], [l2]);
    assert [l1] + [l2] == [l1, l2];
    assert [e1] + [e2] == [e1, e2];
  }

  /** Two entries go to the lists their types select, in order. */
  lemma TwoEntries(e1: Entry, e2: Entry)
    ensures SubtreesOf([e1, e2]) == SubtreesOf([e1]) + SubtreesOf([e2])
    ensures BlobsOf([e1, e2]) == BlobsOf([e1]) + BlobsOf([e2])
    ensures SubtreesOf([e1]) == (if e1.kind == "tree" then [e1.hash] else [])
    ensures SubtreesOf([e2]) == (if e2.kind == "tree" then [e2.hash] else [])
    ensures BlobsOf([e1]) == (if e1.kind == "blob" then [e1.hash] else [])
    ensures BlobsOf([e2]) == (if e2.kind == "blob" then [e2.hash] else [])
  {
    SubtreesAppend([e1], [e2]);
    assert [e1] + [e2] == [e1, e2];
    SingleEntry(e1);
    SingleEntry(e2);
  }

  /** Parsing a tree text one more line: an empty line adds nothing, a
      malformed line makes the whole text fail, and any other line adds its
      entry, whose hash goes to the list its type selects. */
  lemma ParseEntriesStep(lines: seq<string>, i: nat)
    requires i < |lines| && ParseEntries(lines[..i]).Ok?
    ensures var line, es := lines[i], ParseEntries(lines[..i]).value;
            && (line == "" ==> ParseEntries(lines[..i + 1]) == Ok(es))
            && (Malformed(line) ==> ParseEntries(lines).Err?)
            && (line != "" && !Malformed(line) ==>
                  var p := Tokens(line);
                  var e := Entry(p[0], p[1], p[2], p[3]);
                  && ParseEntries(lines[..i + 1]) == Ok(es + [e])
                  && SubtreesOf(es + [e]) == SubtreesOf(es) + (if p[1] == "tree" then [p[2]] else [])
                  && BlobsOf(es + [e]) == BlobsOf(es) + (if p[1] == "blob" then [p[2]] else []))
  {
    var line, es := lines[i], ParseEntries(lines[..i]).value;
    assert lines[..i + 1][..i] == lines[..i];
    assert lines[..i + 1][i] == line;
    if Malformed(line) {
      ParseEntriesFails(lines);
    } else if line != "" {
      var p := Tokens(line);
      var e := Entry(p[0], p[1], p[2], p[3]);
      assert (es + [e])[..|es|] == es;
    }
  }

  /** Is `line` a four-field entry of type `kind`? */
  predicate IsEntryLine(line: string, kind: string)
  {
    |Tokens(line)| == 4 && Tokens(line)[1] == kind
  }

  /** The hashes the `tree` lines of a text name, whether or not the whole text parses. */
  ghost function SubtreeRefs(content: string): set<Hash>
  {
    set l | l in SplitLines(content) && IsEntryLine(l, "tree") :: Tokens(l)[2]
  }
}
