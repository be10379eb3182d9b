/**
 * `CommandInspector`: builds the fan-in tree (what produced a file version,
 * transitively) and the fan-out tree (what a file version went on to produce)
 * from the command log, cutting cycles with a visited set of path:digest keys
 * that is threaded through the whole traversal.
 */
module Inspector {

  import opened Wrappers
  import opened CommandLogs
  import opened Dependencies

  /**
   * An inspector: the log (oldest entry first, as `list_entries()` yields it),
   * the work directory, and the parts of the host it consults — the regular
   * files and their contents, the md5 function and path resolution.
   */
  datatype Inspector = Inspector(
    log: seq<CommandLog>,
    workDir: Path,
    files: map<Path, seq<byte>>,
    md5: seq<byte> -> Digest,
    ops: PathOps)

  /** `hash_of`: the md5 of a regular file's contents, "" for anything that is not a regular file. */
  function HashOf(insp: Inspector, file: Path): (d: Digest)
    ensures file !in insp.files ==> d == ""
  {
    if file in insp.files then insp.md5(insp.files[file]) else ""
  }

  /** `digest or self.hash_of(file)`: a missing or empty digest is recomputed from the file. */
  function FileDigest(insp: Inspector, file: Path, digest: Digest): (d: Digest)
    ensures digest != "" ==> d == digest
    ensures digest == "" ==> d == HashOf(insp, file)
  {
    if digest != "" then digest else HashOf(insp, file)
  }

  /** `__work_path`: "/dev/" paths as they are, others relative to the work directory, else resolved. */
  function WorkPath(insp: Inspector, p: Path): (r: Path)
    ensures IsDevPath(p) ==> r == p
    ensures !IsDevPath(p) && insp.ops.relativeTo(p, insp.workDir).Some? ==> r == insp.ops.relativeTo(p, insp.workDir).value
    ensures !IsDevPath(p) && insp.ops.relativeTo(p, insp.workDir).None? ==> r == insp.ops.resolve(p)
  {
    if IsDevPath(p) then p
    else match insp.ops.relativeTo(p, insp.workDir)
      case Some(rel) => rel
      case None => insp.ops.resolve(p)
  }

  /** The visited-set key `file.as_posix() + ':' + file_digest`. */
  function Key(path: Path, digest: Digest): string
  {
    path + ":" + digest
  }

  lemma KeySeparator(p: Path, d: Digest)
    ensures |Key(p, d)| == |p| + 1 + |d| && Key(p, d)[|p|] == ':'
  {
  }

  /** A hex or empty digest has no ':', so the string key identifies the (path, digest) pair. */
  lemma KeyInjective(p1: Path, d1: Digest, p2: Path, d2: Digest)
    requires ':' !in d1 && ':' !in d2
    requires Key(p1, d1) == Key(p2, d2)
    ensures p1 == p2 && d1 == d2
  {
    var k := Key(p1, d1);
    if |p1| < |p2| {
      KeySeparator(p2, d2);
      assert false;
    } else if |p2| < |p1| {
      KeySeparator(p1, d1);
      assert false;
    } else {
      assert p1 == k[..|p1|] == p2;
      assert d1 == k[|p1| + 1..] == d2;
    }
  }

  /** The side of an entry a file is matched against: inputs for fan-out, outputs for fan-in. */
  function MatchSide(e: CommandLog, out: bool): seq<FileLog>
  {
    if out then e.inFiles else e.outFiles
  }

  /** The side of a matched entry that is expanded: outputs for fan-out, inputs for fan-in. */
  function ExpandSide(e: CommandLog, out: bool): seq<FileLog>
  {
    if out then e.outFiles else e.inFiles
  }

  /** `any(filter(lambda f: f.md5 == file_digest, ...))`: the digest alone decides, never the path. */
  predicate Matches(e: CommandLog, out: bool, digest: Digest)
  {
    exists f :: f in MatchSide(e, out) && f.md5 == digest
  }

  /** The key a recursive call on a logged file uses. */
  function RecordKey(insp: Inspector, f: FileLog): string
  {
    Key(f.path, FileDigest(insp, f.path, f.md5))
  }

  /** Every key a recursive call can visit: one per file record of the log. */
  ghost function RecordKeys(insp: Inspector): set<string>
  {
    LogKeys(insp, insp.log)
  }

  /** The keys of the file records of the entries `log`. */
  ghost function LogKeys(insp: Inspector, log: seq<CommandLog>): set<string>
  {
    if |log| == 0 then {} else FileKeys(insp, log[0].inFiles + log[0].outFiles) + LogKeys(insp, log[1..])
  }

  ghost function FileKeys(insp: Inspector, fs: seq<FileLog>): set<string>
  {
    if |fs| == 0 then {} else {RecordKey(insp, fs[0])} + FileKeys(insp, fs[1..])
  }

  /** Every key a traversal from `file` can visit. */
  ghost function Universe(insp: Inspector, file: Path, digest: Digest): set<string>
  {
    RecordKeys(insp) + {Key(file, FileDigest(insp, file, digest))}
  }

  lemma {:induction false} FileKeysIn(insp: Inspector, fs: seq<FileLog>, j: nat)
    requires j < |fs|
    ensures RecordKey(insp, fs[j]) in FileKeys(insp, fs)
  {
    if j > 0 {
      FileKeysIn(insp, fs[1..], j - 1);
    }
  }

  lemma {:induction false} LogKeysIn(insp: Inspector, log: seq<CommandLog>, i: nat, j: nat)
    requires i < |log| && j < |log[i].inFiles + log[i].outFiles|
    ensures RecordKey(insp, (log[i].inFiles + log[i].outFiles)[j]) in LogKeys(insp, log)
  {
    if i == 0 {
      FileKeysIn(insp, log[0].inFiles + log[0].outFiles, j);
    } else {
      LogKeysIn(insp, log[1..], i - 1, j);
    }
  }

  lemma RecordKeyIn(insp: Inspector, i: nat, out: bool, j: nat)
    requires i < |insp.log| && j < |ExpandSide(insp.log[i], out)|
    ensures RecordKey(insp, ExpandSide(insp.log[i], out)[j]) in RecordKeys(insp)
  {
    var e := insp.log[i];
    if out {
      LogKeysIn(insp, insp.log, i, |e.inFiles| + j);
    } else {
      LogKeysIn(insp, insp.log, i, j);
    }
  }

  lemma UniverseOfRecord(insp: Inspector, f: FileLog)
    requires RecordKey(insp, f) in RecordKeys(insp)
    ensures Universe(insp, f.path, f.md5) == RecordKeys(insp)
  {
  }

  lemma {:induction false} SubsetCard<T>(a: set<T>, b: set<T>)
    requires a <= b
    ensures |a| <= |b|
    decreases |b|
  {
    if a != {} {
      var x :| x in a;
      SubsetCard(a - {x}, b - {x});
    }
  }

  /** Visiting a key of the universe strictly shrinks what is left to visit. */
  lemma VisitShrinks(u: set<string>, r: set<string>, v: set<string>, key: string)
    requires u == r + {key} && key !in v
    ensures |r - (v + {key})| < |u - v|
  {
    SubsetCard(r - (v + {key}), (u - v) - {key});
    assert key in u - v;
  }

  lemma MoreVisitedLeavesLess(r: set<string>, v: set<string>, w: set<string>)
    requires v <= w
    ensures |r - w| <= |r - v|
  {
    SubsetCard(r - w, r - v);
  }

  /** The node `fanin`/`fanout` builds for `file` before looking at the log. */
  function Anchor(insp: Inspector, out: bool, file: Path, digest: Digest): FileDependency
  {
    FileDependency(WorkPath(insp, file), FileDigest(insp, file, digest), out, [])
  }

  /** `nodes` are, one to one and in order, the anchors of `files[j..]`. */
  predicate HeadsFrom(insp: Inspector, nodes: seq<FileDependency>, files: seq<FileLog>, j: nat, out: bool)
  {
    && j + |nodes| == |files|
    && forall t :: 0 <= t < |nodes| ==> nodes[t].(next := []) == Anchor(insp, out, files[j + t].path, files[j + t].md5)
  }

  lemma HeadsFromCons(insp: Inspector, node: FileDependency, rest: seq<FileDependency>, files: seq<FileLog>, j: nat, out: bool)
    requires j < |files|
    requires node.(next := []) == Anchor(insp, out, files[j].path, files[j].md5)
    requires HeadsFrom(insp, rest, files, j + 1, out)
    ensures HeadsFrom(insp, [node] + rest, files, j, out)
  {
    forall t | 0 < t <= |rest|
      ensures ([node] + rest)[t].(next := []) == Anchor(insp, out, files[j + t].path, files[j + t].md5)
    {
      assert ([node] + rest)[t] == rest[t - 1];
    }
  }

  /** `nodes` are, one to one and in order, the anchors of `files`. */
  predicate Heads(insp: Inspector, nodes: seq<FileDependency>, files: seq<FileLog>, out: bool)
  {
    HeadsFrom(insp, nodes, files, 0, out)
  }

  /** The newest-first order of `list_entries(reverse=True)`. */
  function Reverse<T>(s: seq<T>): (r: seq<T>)
    ensures |r| == |s|
  {
    if |s| == 0 then [] else [s[|s| - 1]] + Reverse(s[..|s| - 1])
  }

  lemma {:induction false} ReverseIndex<T>(s: seq<T>, i: nat)
    requires i < |s|
    ensures Reverse(s)[i] == s[|s| - 1 - i]
  {
    if i > 0 {
      ReverseIndex(s[..|s| - 1], i - 1);
    }
  }

  /** The entries of `es` that match `digest`, in the order of `es`. */
  function Select(es: seq<CommandLog>, out: bool, digest: Digest): seq<CommandLog>
  {
    if |es| == 0 then []
    else (if Matches(es[0], out, digest) then [es[0]] else []) + Select(es[1..], out, digest)
  }

  lemma {:induction false} SelectMembers(es: seq<CommandLog>, out: bool, digest: Digest)
    ensures forall e :: e in Select(es, out, digest) <==> e in es && Matches(e, out, digest)
  {
    if |es| > 0 {
      SelectMembers(es[1..], out, digest);
      assert es == [es[0]] + es[1..];
    }
  }

  // The traversal order. `fanin`/`fanout` visit file nodes depth first, each
  // command's files in record order, and share one visited set, so whether a
  // node is expanded depends on every node visited before it. `Visits` lists the
  // file nodes of a tree in that order, each with the key its call checked.

  /** A file node together with the visited-set key its call used. */
  datatype Visit = Visit(key: string, node: FileDependency)

  /** Every command node below `n` lists the anchors of its entry's expanded side, at every depth. */
  predicate FileShaped(insp: Inspector, out: bool, n: FileDependency)
    decreases n
  {
    forall c :: c in n.next ==> CommandShaped(insp, out, c)
  }

  predicate CommandShaped(insp: Inspector, out: bool, c: CommandDependency)
    decreases c
  {
    && Heads(insp, c.next, ExpandSide(c.command, out), out)
    && forall m :: m in c.next ==> FileShaped(insp, out, m)
  }

  /** The file nodes of the tree under `n`, depth first; `key` is the key of `n` itself. */
  function FileVisits(insp: Inspector, out: bool, n: FileDependency, key: string): seq<Visit>
    decreases n
  {
    [Visit(key, n)] + CommandsVisits(insp, out, n.next)
  }

  function CommandsVisits(insp: Inspector, out: bool, cs: seq<CommandDependency>): seq<Visit>
    decreases cs
  {
    if |cs| == 0 then [] else CommandVisits(insp, out, cs[0]) + CommandsVisits(insp, out, cs[1..])
  }

  /** A command's file children carry the keys of the records they were expanded from. */
  function CommandVisits(insp: Inspector, out: bool, c: CommandDependency): seq<Visit>
    decreases c
  {
    FilesVisits(insp, out, c.next, ExpandSide(c.command, out))
  }

  function FilesVisits(insp: Inspector, out: bool, ns: seq<FileDependency>, files: seq<FileLog>): seq<Visit>
    decreases ns
  {
    if |ns| == 0 || |files| == 0 then []
    else FileVisits(insp, out, ns[0], RecordKey(insp, files[0])) + FilesVisits(insp, out, ns[1..], files[1..])
  }

  /** The keys of a list of visits. */
  function VisitKeys(vs: seq<Visit>): set<string>
  {
    if |vs| == 0 then {} else {vs[0].key} + VisitKeys(vs[1..])
  }

  lemma {:induction false} VisitKeysIn(vs: seq<Visit>, k: string)
    ensures k in VisitKeys(vs) <==> exists h :: 0 <= h < |vs| && vs[h].key == k
  {
    if |vs| > 0 {
      VisitKeysIn(vs[1..], k);
      if k in VisitKeys(vs[1..]) {
        var h :| 0 <= h < |vs| - 1 && vs[1..][h].key == k;
        assert vs[h + 1].key == k;
      }
      if exists h :: 0 <= h < |vs| && vs[h].key == k {
        var h :| 0 <= h < |vs| && vs[h].key == k;
        if h > 0 {
          assert vs[1..][h - 1].key == k;
        }
      }
    }
  }

  lemma {:induction false} VisitKeysConcat(a: seq<Visit>, b: seq<Visit>)
    ensures VisitKeys(a + b) == VisitKeys(a) + VisitKeys(b)
  {
    if |a| > 0 {
      VisitKeysConcat(a[1..], b);
      assert (a + b)[1..] == a[1..] + b;
    } else {
      assert a + b == b;
    }
  }

  /** Visit `i` finds its key already taken: visited beforehand, or by an earlier visit. */
  predicate SeenBefore(vs: seq<Visit>, i: nat, visited: set<string>)
    requires i < |vs|
  {
    vs[i].key in visited || exists h :: 0 <= h < i && vs[h].key == vs[i].key
  }

  /**
   * The cut-off rule over a whole traversal: a node whose key was already seen
   * is a leaf; any other node gets one command child per log entry matching its
   * digest, newest first.
   */
  predicate Traversal(insp: Inspector, out: bool, vs: seq<Visit>, visited: set<string>)
  {
    forall i :: 0 <= i < |vs| ==>
      if SeenBefore(vs, i, visited) then vs[i].node.next == []
      else Commands(vs[i].node.next) == Select(Reverse(insp.log), out, vs[i].node.digest)
  }

  lemma TraversalEmpty(insp: Inspector, out: bool, visited: set<string>)
    ensures Traversal(insp, out, [], visited)
  {
  }

  /** A traversal in two parts: the second part starts with the first part's keys visited. */
  lemma TraversalConcat(insp: Inspector, out: bool, a: seq<Visit>, b: seq<Visit>, visited: set<string>)
    requires Traversal(insp, out, a, visited)
    requires Traversal(insp, out, b, visited + VisitKeys(a))
    ensures Traversal(insp, out, a + b, visited)
    ensures VisitKeys(a + b) == VisitKeys(a) + VisitKeys(b)
  {
    var ab := a + b;
    VisitKeysConcat(a, b);
    forall i | 0 <= i < |ab|
      ensures if SeenBefore(ab, i, visited) then ab[i].node.next == []
              else Commands(ab[i].node.next) == Select(Reverse(insp.log), out, ab[i].node.digest)
    {
      if i < |a| {
        SeenBeforeLeft(a, b, i, visited);
        assert ab[i] == a[i];
      } else {
        SeenBeforeRight(a, b, i, visited);
        assert ab[i] == b[i - |a|];
      }
    }
  }

  /** A visit of the first part sees the same keys before it as in the whole. */
  lemma SeenBeforeLeft(a: seq<Visit>, b: seq<Visit>, i: nat, visited: set<string>)
    requires i < |a|
    ensures SeenBefore(a + b, i, visited) <==> SeenBefore(a, i, visited)
  {
    var ab := a + b;
    assert ab[i] == a[i];
    if SeenBefore(ab, i, visited) && ab[i].key !in visited {
      var h :| 0 <= h < i && ab[h].key == ab[i].key;
      assert a[h] == ab[h];
    }
    if SeenBefore(a, i, visited) && a[i].key !in visited {
      var h :| 0 <= h < i && a[h].key == a[i].key;
      assert a[h] == ab[h];
    }
  }

  /** A visit of the second part sees, before it, the first part's keys and the earlier visits of its own part. */
  lemma SeenBeforeRight(a: seq<Visit>, b: seq<Visit>, i: nat, visited: set<string>)
    requires |a| <= i < |a| + |b|
    ensures SeenBefore(a + b, i, visited) <==> SeenBefore(b, i - |a|, visited + VisitKeys(a))
  {
    var ab := a + b;
    var i' := i - |a|;
    assert ab[i] == b[i'];
    if SeenBefore(ab, i, visited) && ab[i].key !in visited {
      var h :| 0 <= h < i && ab[h].key == ab[i].key;
      if h < |a| {
        VisitKeysIn(a, ab[i].key);
        assert a[h] == ab[h];
      } else {
        assert b[h - |a|] == ab[h];
      }
    }
    if SeenBefore(b, i', visited + VisitKeys(a)) && b[i'].key !in visited {
      if b[i'].key in VisitKeys(a) {
        VisitKeysIn(a, b[i'].key);
        var h :| 0 <= h < |a| && a[h].key == b[i'].key;
        assert ab[h] == a[h];
      } else {
        var h :| 0 <= h < i' && b[h].key == b[i'].key;
        assert ab[|a| + h] == b[h];
      }
    }
  }

  /**
   * `fanin` (`out` false) and `fanout` (`out` true) from `file` with the given
   * digest, with the keys already visited; returns the tree and the visited
   * set after the whole traversal, which the caller's next sibling receives.
   * `FanFacts` states the shape of the whole tree.
   */
  function Fan(insp: Inspector, out: bool, file: Path, digest: Digest, visited: set<string>): (r: (FileDependency, set<string>))
    ensures r.0.(next := []) == Anchor(insp, out, file, digest)
    ensures Key(file, r.0.digest) in visited ==> r.0.next == [] && r.1 == visited
    ensures visited + {Key(file, r.0.digest)} <= r.1
    decreases |Universe(insp, file, digest) - visited|, 0, 0
  {
    var anchor := Anchor(insp, out, file, digest);
    var key := Key(file, anchor.digest);
    if key in visited then
      (anchor, visited)
    else
      VisitShrinks(Universe(insp, file, digest), RecordKeys(insp), visited, key);
      var (cmds, v) := Scan(insp, out, anchor.digest, |insp.log|, visited + {key});
      (anchor.(next := cmds), v)
  }

  /** The loop over `list_entries(reverse=True)`: entries `log[k-1]`, ..., `log[0]`, newest first. */
  function Scan(insp: Inspector, out: bool, digest: Digest, k: nat, visited: set<string>): (r: (seq<CommandDependency>, set<string>))
    requires k <= |insp.log|
    ensures visited <= r.1
    decreases |RecordKeys(insp) - visited|, 2, k
  {
    if k == 0 then
      ([], visited)
    else
      var e := insp.log[k - 1];
      if Matches(e, out, digest) then
        var (children, v1) := Expand(insp, out, k - 1, 0, visited);
        MoreVisitedLeavesLess(RecordKeys(insp), visited, v1);
        var (rest, v2) := Scan(insp, out, digest, k - 1, v1);
        ([CommandDependency(e, out, children)] + rest, v2)
      else
        Scan(insp, out, digest, k - 1, visited)
  }

  /** The loop over the files of a matched entry: each is expanded with its own recorded md5. */
  function Expand(insp: Inspector, out: bool, i: nat, j: nat, visited: set<string>): (r: (seq<FileDependency>, set<string>))
    requires i < |insp.log| && j <= |ExpandSide(insp.log[i], out)|
    ensures visited <= r.1
    ensures |r.0| == |ExpandSide(insp.log[i], out)| - j
    decreases |RecordKeys(insp) - visited|, 1, |ExpandSide(insp.log[i], out)| - j
  {
    var files := ExpandSide(insp.log[i], out);
    if j == |files| then
      ([], visited)
    else
      var f := files[j];
      RecordKeyIn(insp, i, out, j);
      UniverseOfRecord(insp, f);
      var (node, v1) := Fan(insp, out, f.path, f.md5, visited);
      MoreVisitedLeavesLess(RecordKeys(insp), visited, v1);
      var (rest, v2) := Expand(insp, out, i, j + 1, v1);
      ([node] + rest, v2)
  }

  /**
   * The tree `Fan` builds, `r` being its result: every node carries the direction,
   * an expanded node has one command child per matching entry, newest first, each
   * command lists the anchors of its entry's expanded side, and the nodes, in
   * traversal order, obey the cut-off rule of one shared visited set, which ends
   * as the keys visited.
   */
  ghost predicate FanTree(insp: Inspector, out: bool, file: Path, digest: Digest, visited: set<string>,
                          r: (FileDependency, set<string>))
  {
    && r.1 <= visited + Universe(insp, file, digest)
    && FileDirected(r.0, out)
    && (Key(file, r.0.digest) !in visited ==> Commands(r.0.next) == Select(Reverse(insp.log), out, r.0.digest))
    && FileShaped(insp, out, r.0)
    && Traversal(insp, out, FileVisits(insp, out, r.0, Key(file, r.0.digest)), visited)
    && r.1 == visited + VisitKeys(FileVisits(insp, out, r.0, Key(file, r.0.digest)))
  }

  /** The command nodes of entries `log[k-1]`, ..., `log[0]`, as `FanTree` has them. */
  ghost predicate ScanTree(insp: Inspector, out: bool, digest: Digest, k: nat, visited: set<string>,
                           r: (seq<CommandDependency>, set<string>))
    requires k <= |insp.log|
  {
    && r.1 <= visited + RecordKeys(insp)
    && Commands(r.0) == Select(Reverse(insp.log[..k]), out, digest)
    && (forall c :: c in r.0 ==> CommandDirected(c, out) && CommandShaped(insp, out, c))
    && Traversal(insp, out, CommandsVisits(insp, out, r.0), visited)
    && r.1 == visited + VisitKeys(CommandsVisits(insp, out, r.0))
  }

  /** The file nodes of `files[j..]` of entry `i`, as `FanTree` has them. */
  ghost predicate ExpandTree(insp: Inspector, out: bool, i: nat, j: nat, visited: set<string>,
                             r: (seq<FileDependency>, set<string>))
    requires i < |insp.log| && j <= |ExpandSide(insp.log[i], out)|
  {
    && r.1 <= visited + RecordKeys(insp)
    && HeadsFrom(insp, r.0, ExpandSide(insp.log[i], out), j, out)
    && (forall n :: n in r.0 ==> FileDirected(n, out) && FileShaped(insp, out, n))
    && Traversal(insp, out, FilesVisits(insp, out, r.0, ExpandSide(insp.log[i], out)[j..]), visited)
    && r.1 == visited + VisitKeys(FilesVisits(insp, out, r.0, ExpandSide(insp.log[i], out)[j..]))
  }

  lemma FanFacts(insp: Inspector, out: bool, file: Path, digest: Digest, visited: set<string>)
    ensures FanTree(insp, out, file, digest, visited, Fan(insp, out, file, digest, visited))
  {
    FanShape(insp, out, file, digest, visited, Fan(insp, out, file, digest, visited));
  }

  lemma ExpandFacts(insp: Inspector, out: bool, i: nat, visited: set<string>)
    requires i < |insp.log|
    ensures ExpandTree(insp, out, i, 0, visited, Expand(insp, out, i, 0, visited))
  {
    ExpandShape(insp, out, i, 0, visited, Expand(insp, out, i, 0, visited));
  }

  // The proof of `FanTree` follows the recursion of `Fan`, `Scan` and `Expand`;
  // each lemma takes the call's result `r` as a parameter.

  lemma {:induction false} FanShape(insp: Inspector, out: bool, file: Path, digest: Digest, visited: set<string>,
                                    r: (FileDependency, set<string>))
    requires r == Fan(insp, out, file, digest, visited)
    ensures FanTree(insp, out, file, digest, visited, r)
    decreases |Universe(insp, file, digest) - visited|, 0, 0, 0
  {
    var anchor := Anchor(insp, out, file, digest);
    var key := Key(file, anchor.digest);
    if key in visited {
      FanCut(insp, out, anchor, key, visited);
    } else {
      VisitShrinks(Universe(insp, file, digest), RecordKeys(insp), visited, key);
      var s := Scan(insp, out, anchor.digest, |insp.log|, visited + {key});
      ScanShape(insp, out, anchor.digest, |insp.log|, visited + {key}, s);
      assert insp.log[..|insp.log|] == insp.log;
      FanStep(insp, out, anchor.(next := s.0), key, visited, s.1);
      assert r == (anchor.(next := s.0), s.1);
    }
  }

  lemma {:induction false} ScanShape(insp: Inspector, out: bool, digest: Digest, k: nat, visited: set<string>,
                                     r: (seq<CommandDependency>, set<string>))
    requires k <= |insp.log| && r == Scan(insp, out, digest, k, visited)
    ensures ScanTree(insp, out, digest, k, visited, r)
    decreases |RecordKeys(insp) - visited|, 2, k, 2
  {
    if k == 0 {
      TraversalEmpty(insp, out, visited);
    } else if Matches(insp.log[k - 1], out, digest) {
      MatchShape(insp, out, digest, k, visited, r);
    } else {
      ScanShape(insp, out, digest, k - 1, visited, r);
      SelectNewest(insp.log, k, out, digest);
    }
  }

  lemma {:induction false} MatchShape(insp: Inspector, out: bool, digest: Digest, k: nat, visited: set<string>,
                                      r: (seq<CommandDependency>, set<string>))
    requires 0 < k <= |insp.log| && Matches(insp.log[k - 1], out, digest) && r == Scan(insp, out, digest, k, visited)
    ensures ScanTree(insp, out, digest, k, visited, r)
    decreases |RecordKeys(insp) - visited|, 2, k, 1
  {
    var x := Expand(insp, out, k - 1, 0, visited);
    MoreVisitedLeavesLess(RecordKeys(insp), visited, x.1);
    var y := Scan(insp, out, digest, k - 1, x.1);
    ScanShape(insp, out, digest, k - 1, x.1, y);
    ExpandShape(insp, out, k - 1, 0, visited, x);
    MatchTreeJoin(insp, out, digest, k, visited, x, y, r);
  }

  /** A matched entry's command node, then the older entries' nodes. */
  lemma MatchTreeJoin(insp: Inspector, out: bool, digest: Digest, k: nat, visited: set<string>,
                      x: (seq<FileDependency>, set<string>), y: (seq<CommandDependency>, set<string>),
                  r: (seq<CommandDependency>, set<string>))
    requires 0 < k <= |insp.log| && Matches(insp.log[k - 1], out, digest)
    requires x == Expand(insp, out, k - 1, 0, visited) && ExpandTree(insp, out, k - 1, 0, visited, x)
    requires y == Scan(insp, out, digest, k - 1, x.1) && ScanTree(insp, out, digest, k - 1, x.1, y)
    requires r == Scan(insp, out, digest, k, visited)
    ensures ScanTree(insp, out, digest, k, visited, r)
  {
    SelectNewest(insp.log, k, out, digest);
    ScanStep(insp, out, CommandDependency(insp.log[k - 1], out, x.0), y.0, visited, x.1, y.1);
    ScanMatched(insp, out, digest, k, visited);
  }

  lemma {:induction false} ExpandShape(insp: Inspector, out: bool, i: nat, j: nat, visited: set<string>,
                                       r: (seq<FileDependency>, set<string>))
    requires i < |insp.log| && j <= |ExpandSide(insp.log[i], out)| && r == Expand(insp, out, i, j, visited)
    ensures ExpandTree(insp, out, i, j, visited, r)
    decreases |RecordKeys(insp) - visited|, 1, |ExpandSide(insp.log[i], out)| - j, 3
  {
    if j == |ExpandSide(insp.log[i], out)| {
      TraversalEmpty(insp, out, visited);
    } else {
      ExpandNext(insp, out, i, j, visited, r);
    }
  }

  lemma {:induction false} ExpandNext(insp: Inspector, out: bool, i: nat, j: nat, visited: set<string>,
                                      r: (seq<FileDependency>, set<string>))
    requires i < |insp.log| && j < |ExpandSide(insp.log[i], out)| && r == Expand(insp, out, i, j, visited)
    ensures ExpandTree(insp, out, i, j, visited, r)
    decreases |RecordKeys(insp) - visited|, 1, |ExpandSide(insp.log[i], out)| - j, 2
  {
    var f := ExpandSide(insp.log[i], out)[j];
    var a := Fan(insp, out, f.path, f.md5, visited);
    MoreVisitedLeavesLess(RecordKeys(insp), visited, a.1);
    var b := Expand(insp, out, i, j + 1, a.1);
    ExpandShape(insp, out, i, j + 1, a.1, b);
    HeadJoin(insp, out, i, j, visited, a, b, r);
  }

  lemma {:induction false} HeadJoin(insp: Inspector, out: bool, i: nat, j: nat, visited: set<string>,
                                    a: (FileDependency, set<string>), b: (seq<FileDependency>, set<string>),
                                    r: (seq<FileDependency>, set<string>))
    requires i < |insp.log| && j < |ExpandSide(insp.log[i], out)|
    requires var f := ExpandSide(insp.log[i], out)[j]; a == Fan(insp, out, f.path, f.md5, visited)
    requires b == Expand(insp, out, i, j + 1, a.1) && ExpandTree(insp, out, i, j + 1, a.1, b)
    requires r == Expand(insp, out, i, j, visited)
    ensures ExpandTree(insp, out, i, j, visited, r)
    decreases |RecordKeys(insp) - visited|, 1, |ExpandSide(insp.log[i], out)| - j, 1
  {
    HeadShape(insp, out, i, j, visited, a);
    ExpandJoin(insp, out, i, j, visited, a, b, r);
  }

  lemma {:induction false} HeadShape(insp: Inspector, out: bool, i: nat, j: nat, visited: set<string>,
                                     a: (FileDependency, set<string>))
    requires i < |insp.log| && j < |ExpandSide(insp.log[i], out)|
    requires var f := ExpandSide(insp.log[i], out)[j]; a == Fan(insp, out, f.path, f.md5, visited)
    ensures var f := ExpandSide(insp.log[i], out)[j]; FanTree(insp, out, f.path, f.md5, visited, a)
    decreases |RecordKeys(insp) - visited|, 1, |ExpandSide(insp.log[i], out)| - j, 0
  {
    var f := ExpandSide(insp.log[i], out)[j];
    RecordKeyIn(insp, i, out, j);
    UniverseOfRecord(insp, f);
    FanShape(insp, out, f.path, f.md5, visited, a);
  }

  /** A file's node, then the nodes of the entry's later files. */
  lemma ExpandJoin(insp: Inspector, out: bool, i: nat, j: nat, visited: set<string>,
                   a: (FileDependency, set<string>), b: (seq<FileDependency>, set<string>),
                   r: (seq<FileDependency>, set<string>))
    requires i < |insp.log| && j < |ExpandSide(insp.log[i], out)|
    requires var f := ExpandSide(insp.log[i], out)[j];
      a == Fan(insp, out, f.path, f.md5, visited) && FanTree(insp, out, f.path, f.md5, visited, a)
    requires b == Expand(insp, out, i, j + 1, a.1) && ExpandTree(insp, out, i, j + 1, a.1, b)
    requires r == Expand(insp, out, i, j, visited)
    ensures ExpandTree(insp, out, i, j, visited, r)
  {
    var files := ExpandSide(insp.log[i], out);
    RecordKeyIn(insp, i, out, j);
    UniverseOfRecord(insp, files[j]);
    ExpandStep(insp, out, a.0, b.0, files, j, visited, a.1, b.1);
    assert r == ([a.0] + b.0, b.1);
  }

  /** A file node followed by the nodes of the later files of the same entry. */
  lemma ExpandStep(insp: Inspector, out: bool, node: FileDependency, rest: seq<FileDependency>, files: seq<FileLog>, j: nat,
                   visited: set<string>, v1: set<string>, v2: set<string>)
    requires j < |files|
    requires node.(next := []) == Anchor(insp, out, files[j].path, files[j].md5)
    requires FileDirected(node, out) && FileShaped(insp, out, node)
    requires Traversal(insp, out, FileVisits(insp, out, node, Key(files[j].path, node.digest)), visited)
    requires v1 == visited + VisitKeys(FileVisits(insp, out, node, Key(files[j].path, node.digest)))
    requires HeadsFrom(insp, rest, files, j + 1, out)
    requires forall n :: n in rest ==> FileDirected(n, out) && FileShaped(insp, out, n)
    requires Traversal(insp, out, FilesVisits(insp, out, rest, files[j + 1..]), v1)
    requires v2 == v1 + VisitKeys(FilesVisits(insp, out, rest, files[j + 1..]))
    ensures HeadsFrom(insp, [node] + rest, files, j, out)
    ensures forall n :: n in [node] + rest ==> FileDirected(n, out) && FileShaped(insp, out, n)
    ensures Traversal(insp, out, FilesVisits(insp, out, [node] + rest, files[j..]), visited)
    ensures v2 == visited + VisitKeys(FilesVisits(insp, out, [node] + rest, files[j..]))
  {
    assert Key(files[j].path, node.digest) == RecordKey(insp, files[j]);
    HeadsFromCons(insp, node, rest, files, j, out);
    FilesVisitsCons(insp, out, node, rest, files, j);
    ThreadVisits(insp, out, FileVisits(insp, out, node, RecordKey(insp, files[j])),
                 FilesVisits(insp, out, rest, files[j + 1..]), visited, v1, v2);
  }

  /** A call whose key was taken visits only its own node, a leaf. */
  lemma FanCut(insp: Inspector, out: bool, n: FileDependency, key: string, visited: set<string>)
    requires key in visited && n.next == []
    ensures Traversal(insp, out, FileVisits(insp, out, n, key), visited)
    ensures visited == visited + VisitKeys(FileVisits(insp, out, n, key))
  {
    assert FileVisits(insp, out, n, key) == [Visit(key, n)] + [];
    assert Visit(key, n) in [Visit(key, n)];
  }

  /** A call whose key was free expands its node, then its command children see the key visited. */
  lemma FanStep(insp: Inspector, out: bool, n: FileDependency, key: string, visited: set<string>, v: set<string>)
    requires key !in visited
    requires Commands(n.next) == Select(Reverse(insp.log), out, n.digest)
    requires Traversal(insp, out, CommandsVisits(insp, out, n.next), visited + {key})
    requires v == visited + {key} + VisitKeys(CommandsVisits(insp, out, n.next))
    ensures Traversal(insp, out, FileVisits(insp, out, n, key), visited)
    ensures v == visited + VisitKeys(FileVisits(insp, out, n, key))
  {
    var own := [Visit(key, n)];
    assert Visit(key, n) in own;
    assert VisitKeys(own) == {key};
    assert Traversal(insp, out, own, visited) by {
      assert !SeenBefore(own, 0, visited);
    }
    TraversalConcat(insp, out, own, CommandsVisits(insp, out, n.next), visited);
  }

  /** Two consecutive parts of a traversal, the second starting from the set the first left. */
  lemma ThreadVisits(insp: Inspector, out: bool, a: seq<Visit>, b: seq<Visit>, visited: set<string>, v1: set<string>, v2: set<string>)
    requires Traversal(insp, out, a, visited) && v1 == visited + VisitKeys(a)
    requires Traversal(insp, out, b, v1) && v2 == v1 + VisitKeys(b)
    ensures Traversal(insp, out, a + b, visited) && v2 == visited + VisitKeys(a + b)
  {
    TraversalConcat(insp, out, a, b, visited);
  }

  /** The visits of a list of commands: the first command's, then the others'. */
  lemma CommandsVisitsCons(insp: Inspector, out: bool, c: CommandDependency, rest: seq<CommandDependency>)
    ensures CommandsVisits(insp, out, [c] + rest) == CommandVisits(insp, out, c) + CommandsVisits(insp, out, rest)
  {
    assert ([c] + rest)[1..] == rest;
  }

  /** The visits of a list of file nodes: the first node's, then the others'. */
  lemma FilesVisitsCons(insp: Inspector, out: bool, n: FileDependency, rest: seq<FileDependency>, files: seq<FileLog>, j: nat)
    requires j < |files|
    ensures FilesVisits(insp, out, [n] + rest, files[j..])
         == FileVisits(insp, out, n, RecordKey(insp, files[j])) + FilesVisits(insp, out, rest, files[j + 1..])
  {
    assert ([n] + rest)[1..] == rest;
    assert files[j..][0] == files[j] && files[j..][1..] == files[j + 1..];
  }

  /** The newest of the first `k` entries comes first in the filtered listing, when it matches. */
  lemma SelectNewest(log: seq<CommandLog>, k: nat, out: bool, digest: Digest)
    requires 0 < k <= |log|
    ensures Select(Reverse(log[..k]), out, digest)
         == (if Matches(log[k - 1], out, digest) then [log[k - 1]] else []) + Select(Reverse(log[..k - 1]), out, digest)
  {
    assert log[..k][..k - 1] == log[..k - 1];
  }

  /** A matched entry's command node followed by the nodes of the older entries. */
  lemma ScanStep(insp: Inspector, out: bool, c: CommandDependency, rest: seq<CommandDependency>,
                 visited: set<string>, v1: set<string>, v2: set<string>)
    requires HeadsFrom(insp, c.next, ExpandSide(c.command, out), 0, out)
    requires forall n :: n in c.next ==> FileShaped(insp, out, n)
    requires Traversal(insp, out, FilesVisits(insp, out, c.next, ExpandSide(c.command, out)[0..]), visited)
    requires v1 == visited + VisitKeys(FilesVisits(insp, out, c.next, ExpandSide(c.command, out)[0..]))
    requires Traversal(insp, out, CommandsVisits(insp, out, rest), v1)
    requires v2 == v1 + VisitKeys(CommandsVisits(insp, out, rest))
    ensures CommandShaped(insp, out, c)
    ensures Commands([c] + rest) == [c.command] + Commands(rest)
    ensures Traversal(insp, out, CommandsVisits(insp, out, [c] + rest), visited)
    ensures v2 == visited + VisitKeys(CommandsVisits(insp, out, [c] + rest))
  {
    assert ExpandSide(c.command, out)[0..] == ExpandSide(c.command, out);
    CommandsVisitsCons(insp, out, c, rest);
    ThreadVisits(insp, out, CommandVisits(insp, out, c), CommandsVisits(insp, out, rest), visited, v1, v2);
  }

  /**
   * `fanin(file)` or `fanin(file, digest=...)`, nothing visited yet: under the
   * anchor, one command node per entry that wrote a file with the anchor's digest,
   * newest first, each with one node per input of that entry, in order.
   */
  function FanIn(insp: Inspector, file: Path, digest: Option<Digest>): (r: FileDependency)
    ensures r.(next := []) == Anchor(insp, false, file, digest.GetOr(""))
    ensures FileDirected(r, false)
    ensures Commands(r.next) == Select(Reverse(insp.log), false, r.digest)
    ensures forall c :: c in r.next ==> Heads(insp, c.next, c.command.inFiles, false)
    ensures FileShaped(insp, false, r)
    ensures Traversal(insp, false, FileVisits(insp, false, r, Key(file, r.digest)), {})
  {
    FanFacts(insp, false, file, digest.GetOr(""), {});
    ShapedHeads(insp, false, Fan(insp, false, file, digest.GetOr(""), {}).0);
    Fan(insp, false, file, digest.GetOr(""), {}).0
  }

  /**
   * `fanout(file)` or `fanout(file, digest=...)`: the mirror image, matching on
   * inputs and expanding outputs, every node marked `out`.
   */
  function FanOut(insp: Inspector, file: Path, digest: Option<Digest>): (r: FileDependency)
    ensures r.(next := []) == Anchor(insp, true, file, digest.GetOr(""))
    ensures FileDirected(r, true)
    ensures Commands(r.next) == Select(Reverse(insp.log), true, r.digest)
    ensures forall c :: c in r.next ==> Heads(insp, c.next, c.command.outFiles, true)
    ensures FileShaped(insp, true, r)
    ensures Traversal(insp, true, FileVisits(insp, true, r, Key(file, r.digest)), {})
  {
    FanFacts(insp, true, file, digest.GetOr(""), {});
    ShapedHeads(insp, true, Fan(insp, true, file, digest.GetOr(""), {}).0);
    Fan(insp, true, file, digest.GetOr(""), {}).0
  }

  /** Under a shaped node, each command lists the anchors of its expanded side. */
  lemma ShapedHeads(insp: Inspector, out: bool, n: FileDependency)
    requires FileShaped(insp, out, n)
    ensures forall c :: c in n.next ==> Heads(insp, c.next, ExpandSide(c.command, out), out)
  {
    forall c | c in n.next
      ensures Heads(insp, c.next, ExpandSide(c.command, out), out)
    {
      assert CommandShaped(insp, out, c);
    }
  }

  lemma {:induction false} ReverseMembers<T>(s: seq<T>)
    ensures forall x :: x in Reverse(s) <==> x in s
  {
    if |s| > 0 {
      ReverseMembers(s[..|s| - 1]);
      assert s == s[..|s| - 1] + [s[|s| - 1]];
    }
  }

  /**
   * The command children of a fan tree are exactly the log entries matching the
   * anchor's digest; the anchor's path plays no part beyond supplying the digest
   * when none is given.
   */
  lemma FanChildren(insp: Inspector, out: bool, file: Path, digest: Digest)
    ensures var r := Fan(insp, out, file, digest, {}).0;
      forall e :: e in Commands(r.next) <==> e in insp.log && Matches(e, out, r.digest)
  {
    FanFacts(insp, out, file, digest, {});
    var r := Fan(insp, out, file, digest, {}).0;
    SelectMembers(Reverse(insp.log), out, r.digest);
    ReverseMembers(insp.log);
  }

  /** No entry with the anchor's digest on the matched side: the tree is the anchor alone. */
  lemma NoMatchIsLeaf(insp: Inspector, out: bool, file: Path, digest: Digest)
    requires forall e :: e in insp.log ==> !Matches(e, out, FileDigest(insp, file, digest))
    ensures Fan(insp, out, file, digest, {}).0 == Anchor(insp, out, file, digest)
  {
    var r := Fan(insp, out, file, digest, {}).0;
    FanChildren(insp, out, file, digest);
    if |r.next| > 0 {
      assert Commands(r.next)[0] in Commands(r.next);
      assert false;
    }
  }

  /**
   * Digest-exactness: every command under a fan-in anchor wrote a file whose
   * recorded md5 is the anchor's digest, and every command under a fan-out
   * anchor read one; an entry that only mentions another version of the same
   * path is never attached.
   */
  lemma DigestExact(insp: Inspector, out: bool, file: Path, digest: Digest)
    ensures var r := Fan(insp, out, file, digest, {}).0;
      forall c :: c in r.next ==> exists f :: f in MatchSide(c.command, out) && f.md5 == r.digest
  {
    var r := Fan(insp, out, file, digest, {}).0;
    FanChildren(insp, out, file, digest);
    forall c | c in r.next
      ensures Matches(c.command, out, r.digest)
    {
      var i :| 0 <= i < |r.next| && r.next[i] == c;
      assert Commands(r.next)[i] == c.command;
      assert c.command in Commands(r.next);
      assert c.command in insp.log;
    }
  }

  /**
   * Direction symmetry, fan-in side: an entry that wrote a file with digest `d`
   * appears under the fan-in tree of any file with digest `d`, with one child per
   * input it read, each carrying that input's digest.
   */
  lemma FanInFindsProducer(insp: Inspector, file: Path, digest: Option<Digest>, e: CommandLog, f: FileLog)
    requires e in insp.log && f in e.outFiles
    requires f.md5 == FileDigest(insp, file, digest.GetOr(""))
    ensures exists c :: c in FanIn(insp, file, digest).next && c.command == e &&
              forall t :: 0 <= t < |e.inFiles| ==> c.next[t].digest == FileDigest(insp, e.inFiles[t].path, e.inFiles[t].md5)
  {
    var r := FanIn(insp, file, digest);
    FanChildren(insp, false, file, digest.GetOr(""));
    assert Matches(e, false, r.digest);
    var i :| 0 <= i < |r.next| && Commands(r.next)[i] == e;
    var c := r.next[i];
    assert c in r.next;
    forall t | 0 <= t < |e.inFiles|
      ensures c.next[t].digest == FileDigest(insp, e.inFiles[t].path, e.inFiles[t].md5)
    {
      assert c.next[t].(next := []) == Anchor(insp, false, e.inFiles[t].path, e.inFiles[t].md5);
    }
  }

  /**
   * Direction symmetry, fan-out side: an entry that read a file with digest `d`
   * appears under the fan-out tree of any file with digest `d`, with one child per
   * output it wrote, each carrying that output's digest.
   */
  lemma FanOutFindsConsumer(insp: Inspector, file: Path, digest: Option<Digest>, e: CommandLog, f: FileLog)
    requires e in insp.log && f in e.inFiles
    requires f.md5 == FileDigest(insp, file, digest.GetOr(""))
    ensures exists c :: c in FanOut(insp, file, digest).next && c.command == e &&
              forall t :: 0 <= t < |e.outFiles| ==> c.next[t].digest == FileDigest(insp, e.outFiles[t].path, e.outFiles[t].md5)
  {
    var r := FanOut(insp, file, digest);
    FanChildren(insp, true, file, digest.GetOr(""));
    assert Matches(e, true, r.digest);
    var i :| 0 <= i < |r.next| && Commands(r.next)[i] == e;
    var c := r.next[i];
    assert c in r.next;
    forall t | 0 <= t < |e.outFiles|
      ensures c.next[t].digest == FileDigest(insp, e.outFiles[t].path, e.outFiles[t].md5)
    {
      assert c.next[t].(next := []) == Anchor(insp, true, e.outFiles[t].path, e.outFiles[t].md5);
    }
  }

  /**
   * The traversal visits at most one key per file record of the log plus the
   * anchor's: the bound on how many files a fan tree expands.
   */
  lemma VisitedBound(insp: Inspector, out: bool, file: Path, digest: Digest)
    ensures |Fan(insp, out, file, digest, {}).1| <= |RecordKeys(insp)| + 1
  {
    var u := Universe(insp, file, digest);
    FanFacts(insp, out, file, digest, {});
    SubsetCard(Fan(insp, out, file, digest, {}).1, u);
    assert |u| <= |RecordKeys(insp)| + 1;
  }

  /** `n`'s own visit comes first among the visits of its tree. */
  lemma FileVisitsHead(insp: Inspector, out: bool, n: FileDependency, key: string)
    ensures |FileVisits(insp, out, n, key)| > 0 && FileVisits(insp, out, n, key)[0] == Visit(key, n)
  {
  }

  /** The visits under two consecutive runs of sibling file nodes. */
  lemma {:induction false} FilesVisitsConcat(insp: Inspector, out: bool, a: seq<FileDependency>, b: seq<FileDependency>,
                                             fa: seq<FileLog>, fb: seq<FileLog>)
    requires |a| == |fa|
    ensures FilesVisits(insp, out, a + b, fa + fb) == FilesVisits(insp, out, a, fa) + FilesVisits(insp, out, b, fb)
  {
    if |a| == 0 {
      assert a + b == b && fa + fb == fb;
    } else {
      FilesVisitsConcat(insp, out, a[1..], b, fa[1..], fb);
      assert (a + b)[1..] == a[1..] + b && (fa + fb)[1..] == fa[1..] + fb;
      assert (a + b)[0] == a[0] && (fa + fb)[0] == fa[0];
    }
  }

  /** The visits under a list of sibling file nodes, split around sibling `s`. */
  lemma FilesVisitsSplit(insp: Inspector, out: bool, ns: seq<FileDependency>, fs: seq<FileLog>, s: nat)
    requires |ns| == |fs| && s < |ns|
    ensures FilesVisits(insp, out, ns, fs)
         == FilesVisits(insp, out, ns[..s], fs[..s]) + FileVisits(insp, out, ns[s], RecordKey(insp, fs[s]))
            + FilesVisits(insp, out, ns[s + 1..], fs[s + 1..])
  {
    assert ns == ns[..s] + ns[s..] && fs == fs[..s] + fs[s..];
    FilesVisitsConcat(insp, out, ns[..s], ns[s..], fs[..s], fs[s..]);
    assert ns[s..][0] == ns[s] && fs[s..][0] == fs[s];
    assert ns[s..][1..] == ns[s + 1..] && fs[s..][1..] == fs[s + 1..];
  }

  /**
   * Siblings share the visited set: when two files of one entry carry the same
   * key, the later one is a leaf, whatever the earlier one's tree was.
   */
  lemma SiblingRepeatIsLeaf(insp: Inspector, out: bool, i: nat, visited: set<string>, t: nat, s: nat)
    requires i < |insp.log|
    requires t < s < |ExpandSide(insp.log[i], out)|
    requires RecordKey(insp, ExpandSide(insp.log[i], out)[t]) == RecordKey(insp, ExpandSide(insp.log[i], out)[s])
    ensures Expand(insp, out, i, 0, visited).0[s].next == []
  {
    var files := ExpandSide(insp.log[i], out);
    ExpandFacts(insp, out, i, visited);
    var ns := Expand(insp, out, i, 0, visited).0;
    assert files[0..] == files;
    var vs := FilesVisits(insp, out, ns, files);
    SiblingPositions(insp, out, ns, files, t, s);
    var p, q :| 0 <= p < q < |vs| && vs[p].key == RecordKey(insp, files[t]) && vs[q] == Visit(RecordKey(insp, files[s]), ns[s]);
    assert SeenBefore(vs, q, visited);
  }

  /** In the visits of sibling file nodes, sibling `t`'s own visit comes before sibling `s`'s. */
  lemma SiblingPositions(insp: Inspector, out: bool, ns: seq<FileDependency>, files: seq<FileLog>, t: nat, s: nat)
    requires |ns| == |files| && t < s < |ns|
    ensures var vs := FilesVisits(insp, out, ns, files);
      exists p, q :: 0 <= p < q < |vs| && vs[p].key == RecordKey(insp, files[t]) && vs[q] == Visit(RecordKey(insp, files[s]), ns[s])
  {
    var vs := FilesVisits(insp, out, ns, files);
    FilesVisitsSplit(insp, out, ns, files, s);
    var pre := FilesVisits(insp, out, ns[..s], files[..s]);
    FilesVisitsSplit(insp, out, ns[..s], files[..s], t);
    assert ns[..s][t] == ns[t] && files[..s][t] == files[t];
    var pre2 := FilesVisits(insp, out, ns[..s][..t], files[..s][..t]);
    FileVisitsHead(insp, out, ns[t], RecordKey(insp, files[t]));
    FileVisitsHead(insp, out, ns[s], RecordKey(insp, files[s]));
    assert pre[|pre2|] == Visit(RecordKey(insp, files[t]), ns[t]);
    assert vs[|pre|] == Visit(RecordKey(insp, files[s]), ns[s]);
    assert vs[|pre2|] == pre[|pre2|];
  }

  /** Sibling `s`'s own visit is among the visits of the sibling file nodes. */
  lemma FileVisitAt(insp: Inspector, out: bool, ns: seq<FileDependency>, files: seq<FileLog>, s: nat)
    requires |ns| == |files| && s < |ns|
    ensures var vs := FilesVisits(insp, out, ns, files);
      exists p :: 0 <= p < |vs| && vs[p] == Visit(RecordKey(insp, files[s]), ns[s])
  {
    var vs := FilesVisits(insp, out, ns, files);
    FilesVisitsSplit(insp, out, ns, files, s);
    var pre := FilesVisits(insp, out, ns[..s], files[..s]);
    FileVisitsHead(insp, out, ns[s], RecordKey(insp, files[s]));
    assert vs[|pre|] == Visit(RecordKey(insp, files[s]), ns[s]);
  }

  /** The visits under two consecutive runs of command nodes. */
  lemma {:induction false} CommandsVisitsConcat(insp: Inspector, out: bool, a: seq<CommandDependency>, b: seq<CommandDependency>)
    ensures CommandsVisits(insp, out, a + b) == CommandsVisits(insp, out, a) + CommandsVisits(insp, out, b)
  {
    if |a| == 0 {
      assert a + b == b;
    } else {
      CommandsVisitsConcat(insp, out, a[1..], b);
      CommandsVisitsStep(insp, out, a, b);
    }
  }

  lemma CommandsVisitsStep(insp: Inspector, out: bool, a: seq<CommandDependency>, b: seq<CommandDependency>)
    requires |a| > 0
    requires CommandsVisits(insp, out, a[1..] + b) == CommandsVisits(insp, out, a[1..]) + CommandsVisits(insp, out, b)
    ensures CommandsVisits(insp, out, a + b) == CommandsVisits(insp, out, a) + CommandsVisits(insp, out, b)
  {
    assert a == [a[0]] + a[1..] && a + b == [a[0]] + (a[1..] + b);
    CommandsVisitsCons(insp, out, a[0], a[1..]);
    CommandsVisitsCons(insp, out, a[0], a[1..] + b);
    ConcatAssoc(CommandVisits(insp, out, a[0]), CommandsVisits(insp, out, a[1..]), CommandsVisits(insp, out, b));
  }

  lemma ConcatAssoc<T>(x: seq<T>, y: seq<T>, z: seq<T>)
    ensures x + (y + z) == (x + y) + z
  {
  }

  /** The visits under a list of command nodes, split around command `b`. */
  lemma CommandsVisitsSplit(insp: Inspector, out: bool, cs: seq<CommandDependency>, b: nat)
    requires b < |cs|
    ensures CommandsVisits(insp, out, cs)
         == CommandsVisits(insp, out, cs[..b]) + CommandVisits(insp, out, cs[b]) + CommandsVisits(insp, out, cs[b + 1..])
  {
    assert cs == cs[..b] + cs[b..];
    CommandsVisitsConcat(insp, out, cs[..b], cs[b..]);
    assert cs[b..] == [cs[b]] + cs[b + 1..];
    CommandsVisitsCons(insp, out, cs[b], cs[b + 1..]);
  }

  /**
   * Command nodes share the visited set too: when an input (for fan-in) of a
   * newer matching entry `a` and one of an older entry `b` carry the same key,
   * the node under `b` is a leaf, whatever the tree under `a` was.
   */
  lemma CommandRepeatIsLeaf(insp: Inspector, out: bool, file: Path, digest: Digest, visited: set<string>,
                            a: nat, b: nat, t: nat, s: nat)
    requires var r := Fan(insp, out, file, digest, visited).0;
      && a < b < |r.next|
      && t < |ExpandSide(r.next[a].command, out)| && s < |ExpandSide(r.next[b].command, out)|
      && RecordKey(insp, ExpandSide(r.next[a].command, out)[t]) == RecordKey(insp, ExpandSide(r.next[b].command, out)[s])
    ensures var r := Fan(insp, out, file, digest, visited).0;
      s < |r.next[b].next| && r.next[b].next[s].next == []
  {
    var r := Fan(insp, out, file, digest, visited).0;
    FanFacts(insp, out, file, digest, visited);
    ShapedHeads(insp, out, r);
    assert r.next[a] in r.next && r.next[b] in r.next;
    CommandPositions(insp, out, Key(file, r.digest), r, a, b, t, s);
    var vs := FileVisits(insp, out, r, Key(file, r.digest));
    var p, q :| 0 <= p < q < |vs| && vs[p].key == vs[q].key && vs[q].node == r.next[b].next[s];
    RepeatIsLeaf(insp, out, file, digest, visited, p, q);
  }

  /** In the visits of a tree, input `t` of command `a` is visited before input `s` of a later command `b`. */
  lemma CommandPositions(insp: Inspector, out: bool, key: string, r: FileDependency, a: nat, b: nat, t: nat, s: nat)
    requires a < b < |r.next|
    requires |r.next[a].next| == |ExpandSide(r.next[a].command, out)| && t < |r.next[a].next|
    requires |r.next[b].next| == |ExpandSide(r.next[b].command, out)| && s < |r.next[b].next|
    requires RecordKey(insp, ExpandSide(r.next[a].command, out)[t]) == RecordKey(insp, ExpandSide(r.next[b].command, out)[s])
    ensures var vs := FileVisits(insp, out, r, key);
      exists p, q :: 0 <= p < q < |vs| && vs[p].key == vs[q].key && vs[q].node == r.next[b].next[s]
  {
    var cs := r.next;
    var vs := FileVisits(insp, out, r, key);
    var front, x, mid, pre, y, tail := VisitsLayout(insp, out, key, r, a, b);
    FileVisitAt(insp, out, cs[a].next, ExpandSide(cs[a].command, out), t);
    FileVisitAt(insp, out, cs[b].next, ExpandSide(cs[b].command, out), s);
    var k := RecordKey(insp, ExpandSide(cs[a].command, out)[t]);
    var e1, e2 := Visit(k, cs[a].next[t]), Visit(k, cs[b].next[s]);
    Positions(vs, Visit(key, r), front, x, mid, y, tail, pre, e1, e2);
    var p, q :| 0 <= p < q < |vs| && vs[p] == e1 && vs[q] == e2;
    assert vs[p].key == vs[q].key && vs[q].node == r.next[b].next[s];
  }

  /** The visits of a tree cut around its command children `a` and `b`. */
  lemma VisitsLayout(insp: Inspector, out: bool, key: string, r: FileDependency, a: nat, b: nat)
    returns (front: seq<Visit>, x: seq<Visit>, mid: seq<Visit>, pre: seq<Visit>, y: seq<Visit>, tail: seq<Visit>)
    requires a < b < |r.next|
    ensures FileVisits(insp, out, r, key) == [Visit(key, r)] + (pre + y + tail) && pre == front + x + mid
    ensures x == CommandVisits(insp, out, r.next[a]) && y == CommandVisits(insp, out, r.next[b])
  {
    var cs := r.next;
    CommandsVisitsSplit(insp, out, cs, b);
    CommandsVisitsSplit(insp, out, cs[..b], a);
    assert cs[..b][a] == cs[a] && cs[..b][..a] == cs[..a];
    front, x, mid := CommandsVisits(insp, out, cs[..a]), CommandVisits(insp, out, cs[a]), CommandsVisits(insp, out, cs[..b][a + 1..]);
    pre, y, tail := CommandsVisits(insp, out, cs[..b]), CommandVisits(insp, out, cs[b]), CommandsVisits(insp, out, cs[b + 1..]);
  }

  /** An element of `x` comes before an element of `y` in a list that holds `x` before `y`. */
  lemma Positions<T>(vs: seq<T>, v0: T, front: seq<T>, x: seq<T>, mid: seq<T>, y: seq<T>, tail: seq<T>, pre: seq<T>,
                     e1: T, e2: T)
    requires vs == [v0] + (pre + y + tail) && pre == front + x + mid
    requires e1 in x && e2 in y
    ensures exists p, q :: 0 <= p < q < |vs| && vs[p] == e1 && vs[q] == e2
  {
    var p :| 0 <= p < |x| && x[p] == e1;
    var q :| 0 <= q < |y| && y[q] == e2;
    assert vs[1 + |front| + p] == pre[|front| + p] == e1;
    assert vs[1 + |pre| + q] == e2;
  }

  /** At any depth, a visit whose key an earlier visit of the same traversal carried is a leaf. */
  lemma RepeatIsLeaf(insp: Inspector, out: bool, file: Path, digest: Digest, visited: set<string>, h: nat, i: nat)
    requires var r := Fan(insp, out, file, digest, visited).0;
      var vs := FileVisits(insp, out, r, Key(file, r.digest));
      h < i < |vs| && vs[h].key == vs[i].key
    ensures var r := Fan(insp, out, file, digest, visited).0;
      FileVisits(insp, out, r, Key(file, r.digest))[i].node.next == []
  {
    var r := Fan(insp, out, file, digest, visited).0;
    var vs := FileVisits(insp, out, r, Key(file, r.digest));
    FanFacts(insp, out, file, digest, visited);
    assert SeenBefore(vs, i, visited);
  }

  /**
   * Cycles are cut at any depth: below the anchor, a file version with the
   * anchor's own key is always a leaf.
   */
  lemma AnchorRepeatIsLeaf(insp: Inspector, out: bool, file: Path, digest: Digest, visited: set<string>, i: nat)
    requires var r := Fan(insp, out, file, digest, visited).0;
      0 < i < |FileVisits(insp, out, r, Key(file, r.digest))| &&
      FileVisits(insp, out, r, Key(file, r.digest))[i].key == Key(file, r.digest)
    ensures var r := Fan(insp, out, file, digest, visited).0;
      FileVisits(insp, out, r, Key(file, r.digest))[i].node.next == []
  {
    var r := Fan(insp, out, file, digest, visited).0;
    var vs := FileVisits(insp, out, r, Key(file, r.digest));
    FanFacts(insp, out, file, digest, visited);
    FileVisitsHead(insp, out, r, Key(file, r.digest));
    assert SeenBefore(vs, i, visited);
  }

  // `__work_path` only decides what a node displays: the visited keys use the
  // raw path, so neither the path operations nor the work directory change the
  // shape of a tree or the keys it visits.

  /** The tree with every display path blanked out. */
  function EraseFile(n: FileDependency): (r: FileDependency)
    ensures r.digest == n.digest && r.out == n.out && |r.next| == |n.next|
    decreases n
  {
    FileDependency("", n.digest, n.out, EraseCommands(n.next))
  }

  function EraseCommands(cs: seq<CommandDependency>): (r: seq<CommandDependency>)
    ensures |r| == |cs|
    decreases cs
  {
    if |cs| == 0 then [] else [EraseCommand(cs[0])] + EraseCommands(cs[1..])
  }

  function EraseCommand(c: CommandDependency): CommandDependency
    decreases c
  {
    c.(next := EraseFiles(c.next))
  }

  function EraseFiles(ns: seq<FileDependency>): (r: seq<FileDependency>)
    ensures |r| == |ns|
    decreases ns
  {
    if |ns| == 0 then [] else [EraseFile(ns[0])] + EraseFiles(ns[1..])
  }

  /**
   * Two inspectors that differ only in path resolution build the same tree
   * apart from display paths, and leave the same visited set.
   */
  lemma {:induction false} FanIgnoresPathOps(insp: Inspector, ops: PathOps, w: Path, out: bool, file: Path, digest: Digest, visited: set<string>)
    ensures EraseFile(Fan(insp, out, file, digest, visited).0) == EraseFile(Fan(insp.(workDir := w, ops := ops), out, file, digest, visited).0)
    ensures Fan(insp, out, file, digest, visited).1 == Fan(insp.(workDir := w, ops := ops), out, file, digest, visited).1
    decreases |Universe(insp, file, digest) - visited|, 0, 0, 0
  {
    var insp' := insp.(workDir := w, ops := ops);
    var anchor, anchor' := Anchor(insp, out, file, digest), Anchor(insp', out, file, digest);
    assert anchor'.digest == anchor.digest;
    var key := Key(file, anchor.digest);
    if key in visited {
      assert Fan(insp, out, file, digest, visited) == (anchor, visited);
      assert Fan(insp', out, file, digest, visited) == (anchor', visited);
    } else {
      VisitShrinks(Universe(insp, file, digest), RecordKeys(insp), visited, key);
      ScanIgnoresPathOps(insp, ops, w, out, anchor.digest, |insp.log|, visited + {key});
      var (cmds, v) := Scan(insp, out, anchor.digest, |insp.log|, visited + {key});
      var (cmds', v') := Scan(insp', out, anchor.digest, |insp.log|, visited + {key});
      assert Fan(insp, out, file, digest, visited) == (anchor.(next := cmds), v);
      assert Fan(insp', out, file, digest, visited) == (anchor'.(next := cmds'), v');
      EraseNode(anchor.(next := cmds), anchor'.(next := cmds'));
    }
  }

  /** `fanin` and `fanout` under other path operations and another work directory: the same trees up to display paths. */
  lemma FansIgnorePathOps(insp: Inspector, ops: PathOps, w: Path, file: Path, digest: Option<Digest>)
    ensures EraseFile(FanIn(insp, file, digest)) == EraseFile(FanIn(insp.(workDir := w, ops := ops), file, digest))
    ensures EraseFile(FanOut(insp, file, digest)) == EraseFile(FanOut(insp.(workDir := w, ops := ops), file, digest))
  {
    FanIgnoresPathOps(insp, ops, w, false, file, digest.GetOr(""), {});
    FanIgnoresPathOps(insp, ops, w, true, file, digest.GetOr(""), {});
  }

  /** Erasing a file node keeps its digest and side and erases its commands. */
  lemma EraseNode(n: FileDependency, n': FileDependency)
    requires n.digest == n'.digest && n.out == n'.out && EraseCommands(n.next) == EraseCommands(n'.next)
    ensures EraseFile(n) == EraseFile(n')
  {
  }

  lemma {:induction false} ScanIgnoresPathOps(insp: Inspector, ops: PathOps, w: Path, out: bool, digest: Digest, k: nat, visited: set<string>)
    requires k <= |insp.log|
    ensures EraseCommands(Scan(insp, out, digest, k, visited).0) == EraseCommands(Scan(insp.(workDir := w, ops := ops), out, digest, k, visited).0)
    ensures Scan(insp, out, digest, k, visited).1 == Scan(insp.(workDir := w, ops := ops), out, digest, k, visited).1
    decreases |RecordKeys(insp) - visited|, 2, k, 2
  {
    if k > 0 {
      if Matches(insp.log[k - 1], out, digest) {
        MatchIgnoresPathOps(insp, ops, w, out, digest, k, visited);
      } else {
        ScanIgnoresPathOps(insp, ops, w, out, digest, k - 1, visited);
      }
    }
  }

  /** A matched entry: its node, then the older entries, agree under both inspectors. */
  lemma {:induction false} MatchIgnoresPathOps(insp: Inspector, ops: PathOps, w: Path, out: bool, digest: Digest, k: nat, visited: set<string>)
    requires 0 < k <= |insp.log| && Matches(insp.log[k - 1], out, digest)
    ensures EraseCommands(Scan(insp, out, digest, k, visited).0) == EraseCommands(Scan(insp.(workDir := w, ops := ops), out, digest, k, visited).0)
    ensures Scan(insp, out, digest, k, visited).1 == Scan(insp.(workDir := w, ops := ops), out, digest, k, visited).1
    decreases |RecordKeys(insp) - visited|, 2, k, 1
  {
    ExpandIgnoresPathOps(insp, ops, w, out, k - 1, 0, visited);
    RestIgnoresPathOps(insp, ops, w, out, digest, k, visited, Expand(insp, out, k - 1, 0, visited).1);
    MatchJoin(insp, ops, w, out, digest, k, visited);
  }

  /** The scan of the entries older than a matched one, from any set `v` the entry's expansion can leave. */
  lemma {:induction false} RestIgnoresPathOps(insp: Inspector, ops: PathOps, w: Path, out: bool, digest: Digest, k: nat,
                                              visited: set<string>, v: set<string>)
    requires 0 < k <= |insp.log| && visited <= v
    ensures EraseCommands(Scan(insp, out, digest, k - 1, v).0) == EraseCommands(Scan(insp.(workDir := w, ops := ops), out, digest, k - 1, v).0)
    ensures Scan(insp, out, digest, k - 1, v).1 == Scan(insp.(workDir := w, ops := ops), out, digest, k - 1, v).1
    decreases |RecordKeys(insp) - visited|, 2, k, 0
  {
    MoreVisitedLeavesLess(RecordKeys(insp), visited, v);
    ScanIgnoresPathOps(insp, ops, w, out, digest, k - 1, v);
  }

  /** A matched entry's scan agrees under both inspectors when its expansion and the rest do. */
  lemma MatchJoin(insp: Inspector, ops: PathOps, w: Path, out: bool, digest: Digest, k: nat, visited: set<string>)
    requires 0 < k <= |insp.log| && Matches(insp.log[k - 1], out, digest)
    requires EraseFiles(Expand(insp, out, k - 1, 0, visited).0) == EraseFiles(Expand(insp.(workDir := w, ops := ops), out, k - 1, 0, visited).0)
    requires Expand(insp, out, k - 1, 0, visited).1 == Expand(insp.(workDir := w, ops := ops), out, k - 1, 0, visited).1
    requires var v := Expand(insp, out, k - 1, 0, visited).1;
      && EraseCommands(Scan(insp, out, digest, k - 1, v).0) == EraseCommands(Scan(insp.(workDir := w, ops := ops), out, digest, k - 1, v).0)
      && Scan(insp, out, digest, k - 1, v).1 == Scan(insp.(workDir := w, ops := ops), out, digest, k - 1, v).1
    ensures EraseCommands(Scan(insp, out, digest, k, visited).0) == EraseCommands(Scan(insp.(workDir := w, ops := ops), out, digest, k, visited).0)
    ensures Scan(insp, out, digest, k, visited).1 == Scan(insp.(workDir := w, ops := ops), out, digest, k, visited).1
  {
    var insp' := insp.(workDir := w, ops := ops);
    assert insp'.log == insp.log;
    ScanMatched(insp, out, digest, k, visited);
    ScanMatched(insp', out, digest, k, visited);
    var x, x' := Expand(insp, out, k - 1, 0, visited), Expand(insp', out, k - 1, 0, visited);
    var e, y, y' := insp.log[k - 1], Scan(insp, out, digest, k - 1, x.1), Scan(insp', out, digest, k - 1, x.1);
    EraseConsCommand(e, out, x.0, x'.0, y.0, y'.0);
  }

  /** A matched entry: its expanded node first, then the older entries from the set its expansion left. */
  lemma ScanMatched(insp: Inspector, out: bool, digest: Digest, k: nat, visited: set<string>)
    requires 0 < k <= |insp.log| && Matches(insp.log[k - 1], out, digest)
    ensures var x := Expand(insp, out, k - 1, 0, visited);
      var y := Scan(insp, out, digest, k - 1, x.1);
      Scan(insp, out, digest, k, visited) == ([CommandDependency(insp.log[k - 1], out, x.0)] + y.0, y.1)
  {
  }

  /** Erasing a list of commands erases each command and its files. */
  lemma EraseConsCommand(e: CommandLog, out: bool, ns: seq<FileDependency>, ns': seq<FileDependency>,
                         rest: seq<CommandDependency>, rest': seq<CommandDependency>)
    requires EraseFiles(ns) == EraseFiles(ns') && EraseCommands(rest) == EraseCommands(rest')
    ensures EraseCommands([CommandDependency(e, out, ns)] + rest) == EraseCommands([CommandDependency(e, out, ns')] + rest')
  {
    assert ([CommandDependency(e, out, ns)] + rest)[1..] == rest;
    assert ([CommandDependency(e, out, ns')] + rest')[1..] == rest';
  }

  /** Erasing a list of file nodes erases each node. */
  lemma EraseConsFile(n: FileDependency, n': FileDependency, rest: seq<FileDependency>, rest': seq<FileDependency>)
    requires EraseFile(n) == EraseFile(n') && EraseFiles(rest) == EraseFiles(rest')
    ensures EraseFiles([n] + rest) == EraseFiles([n'] + rest')
  {
    assert ([n] + rest)[1..] == rest && ([n'] + rest')[1..] == rest';
  }

  lemma {:induction false} ExpandIgnoresPathOps(insp: Inspector, ops: PathOps, w: Path, out: bool, i: nat, j: nat, visited: set<string>)
    requires i < |insp.log| && j <= |ExpandSide(insp.log[i], out)|
    ensures EraseFiles(Expand(insp, out, i, j, visited).0) == EraseFiles(Expand(insp.(workDir := w, ops := ops), out, i, j, visited).0)
    ensures Expand(insp, out, i, j, visited).1 == Expand(insp.(workDir := w, ops := ops), out, i, j, visited).1
    decreases |RecordKeys(insp) - visited|, 1, |ExpandSide(insp.log[i], out)| - j, 2
  {
    var insp' := insp.(workDir := w, ops := ops);
    var files := ExpandSide(insp.log[i], out);
    if j < |files| {
      var f := files[j];
      HeadIgnoresPathOps(insp, ops, w, out, i, j, visited);
      var a, a' := Fan(insp, out, f.path, f.md5, visited), Fan(insp', out, f.path, f.md5, visited);
      TailIgnoresPathOps(insp, ops, w, out, i, j, visited, a.1);
      var b, b' := Expand(insp, out, i, j + 1, a.1), Expand(insp', out, i, j + 1, a.1);
      assert Expand(insp, out, i, j, visited) == ([a.0] + b.0, b.1);
      assert Expand(insp', out, i, j, visited) == ([a'.0] + b'.0, b'.1);
      EraseConsFile(a.0, a'.0, b.0, b'.0);
    }
  }

  /** The node of the entry's `j`-th file agrees under both inspectors. */
  lemma {:induction false} HeadIgnoresPathOps(insp: Inspector, ops: PathOps, w: Path, out: bool, i: nat, j: nat, visited: set<string>)
    requires i < |insp.log| && j < |ExpandSide(insp.log[i], out)|
    ensures var f := ExpandSide(insp.log[i], out)[j];
      EraseFile(Fan(insp, out, f.path, f.md5, visited).0) == EraseFile(Fan(insp.(workDir := w, ops := ops), out, f.path, f.md5, visited).0)
      && Fan(insp, out, f.path, f.md5, visited).1 == Fan(insp.(workDir := w, ops := ops), out, f.path, f.md5, visited).1
    decreases |RecordKeys(insp) - visited|, 1, |ExpandSide(insp.log[i], out)| - j, 1
  {
    var f := ExpandSide(insp.log[i], out)[j];
    RecordKeyIn(insp, i, out, j);
    UniverseOfRecord(insp, f);
    FanIgnoresPathOps(insp, ops, w, out, f.path, f.md5, visited);
  }

  /** The nodes of the later files agree, from any set `v` the `j`-th file can leave. */
  lemma {:induction false} TailIgnoresPathOps(insp: Inspector, ops: PathOps, w: Path, out: bool, i: nat, j: nat,
                                              visited: set<string>, v: set<string>)
    requires i < |insp.log| && j < |ExpandSide(insp.log[i], out)| && visited <= v
    ensures EraseFiles(Expand(insp, out, i, j + 1, v).0) == EraseFiles(Expand(insp.(workDir := w, ops := ops), out, i, j + 1, v).0)
    ensures Expand(insp, out, i, j + 1, v).1 == Expand(insp.(workDir := w, ops := ops), out, i, j + 1, v).1
    decreases |RecordKeys(insp) - visited|, 1, |ExpandSide(insp.log[i], out)| - j, 0
  {
    MoreVisitedLeavesLess(RecordKeys(insp), visited, v);
    ExpandIgnoresPathOps(insp, ops, w, out, i, j + 1, v);
  }


}
