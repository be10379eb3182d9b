/**
 * What `ToolImage.__run` computes once the container is done: the log entry
 * extended with uploaded inputs and downloaded outputs, and the sorted
 * `upload_files` / `download_files` lists.
 */
module Run {

  import opened Wrappers
  import opened CommandLogs
  import opened Sorting

  /**
   * The outputs `download_files` lists: those whose path does not start with
   * "/dev/", in log order, each as often as the log has it.
   */
  function Downloadable(outFiles: seq<FileLog>): (r: seq<FileLog>)
    ensures forall f :: f in r <==> f in outFiles && !IsDevPath(f.path)
    ensures forall f :: multiset(r)[f] == (if IsDevPath(f.path) then 0 else multiset(outFiles)[f])
  {
    if |outFiles| == 0 then []
    else
      assert outFiles == [outFiles[0]] + outFiles[1..];
      (if IsDevPath(outFiles[0].path) then [] else [outFiles[0]]) + Downloadable(outFiles[1..])
  }

  /** `f.path.relative_to(work_dir).as_posix()` for each file; the first path outside `workDir` raises ValueError. */
  function RelativePaths(files: seq<FileLog>, workDir: Path, ops: PathOps): (r: Result<seq<Path>>)
    ensures r.Success? <==> forall f :: f in files ==> ops.relativeTo(f.path, workDir).Some?
    ensures r.Success? ==> |r.value| == |files|
    ensures r.Success? ==> forall i :: 0 <= i < |files| ==> ops.relativeTo(files[i].path, workDir) == Some(r.value[i])
  {
    if |files| == 0 then Success([])
    else
      match ops.relativeTo(files[0].path, workDir)
      case None => Failure("ValueError")
      case Some(p) =>
        match RelativePaths(files[1..], workDir, ops)
        case Failure(e) => Failure(e)
        case Success(ps) =>
          assert files == [files[0]] + files[1..];
          Success([p] + ps)
  }

  /**
   * `download_files`: the paths of the non-"/dev/" outputs relative to the work
   * directory, in ascending order; an output outside the work directory makes
   * the whole run raise.
   */
  function DownloadFiles(outFiles: seq<FileLog>, workDir: Path, ops: PathOps): (r: Result<seq<Path>>)
    ensures r.Success? <==> forall f :: f in outFiles && !IsDevPath(f.path) ==> ops.relativeTo(f.path, workDir).Some?
    ensures r.Success? ==> Sorted(r.value)
    ensures r.Success? ==> |r.value| == |Downloadable(outFiles)|
    ensures r.Success? ==> (&& RelativePaths(Downloadable(outFiles), workDir, ops).Success?
                            && multiset(r.value) == multiset(RelativePaths(Downloadable(outFiles), workDir, ops).value))
    ensures r.Success? ==> forall p :: p in r.value <==>
      exists f :: f in outFiles && !IsDevPath(f.path) && ops.relativeTo(f.path, workDir) == Some(p)
  {
    match RelativePaths(Downloadable(outFiles), workDir, ops)
    case Failure(e) => Failure(e)
    case Success(ps) =>
      SortMembers(ps);
      DownloadedPaths(outFiles, workDir, ops, ps);
      Success(Sort(ps))
  }

  /** Sorting keeps the length and the set of members. */
  lemma SortMembers(ps: seq<Path>)
    ensures |Sort(ps)| == |ps|
    ensures forall p :: p in Sort(ps) <==> p in ps
  {
    assert |multiset(Sort(ps))| == |multiset(ps)|;
    forall p ensures p in Sort(ps) <==> p in ps {
      assert p in Sort(ps) <==> p in multiset(Sort(ps));
      assert p in ps <==> p in multiset(ps);
    }
  }

  /** The relative paths of the downloadable outputs are exactly those of the non-"/dev/" outputs. */
  lemma DownloadedPaths(outFiles: seq<FileLog>, workDir: Path, ops: PathOps, ps: seq<Path>)
    requires RelativePaths(Downloadable(outFiles), workDir, ops) == Success(ps)
    ensures forall p :: p in ps ==>
      exists f :: f in outFiles && !IsDevPath(f.path) && ops.relativeTo(f.path, workDir) == Some(p)
    ensures forall f :: f in outFiles && !IsDevPath(f.path) ==> ops.relativeTo(f.path, workDir).value in ps
  {
    var d := Downloadable(outFiles);
    forall p | p in ps
      ensures exists f :: f in outFiles && !IsDevPath(f.path) && ops.relativeTo(f.path, workDir) == Some(p)
    {
      var i :| 0 <= i < |ps| && ps[i] == p;
      assert d[i] in d;
    }
    forall f | f in outFiles && !IsDevPath(f.path) ensures ops.relativeTo(f.path, workDir).value in ps {
      var i :| 0 <= i < |d| && d[i] == f;
    }
  }

  /** `upload_files`: the posix paths of the uploaded files in ascending order. */
  function UploadFiles(uploaded: seq<Path>): (r: seq<Path>)
    ensures Sorted(r)
    ensures multiset(r) == multiset(uploaded)
  {
    Sort(uploaded)
  }

  /**
   * The log entry `__run` returns: the uploaded inputs follow the exec's own
   * inputs, and the downloaded outputs follow the stream records, only when the
   * command succeeded.
   */
  function RunLog(exec: CommandLog, uploaded: seq<FileLog>, downloaded: seq<FileLog>): (log: CommandLog)
    ensures log.command == exec.command && log.exitCode == exec.exitCode
    ensures |log.inFiles| == |exec.inFiles| + |uploaded|
    ensures log.inFiles[..|exec.inFiles|] == exec.inFiles && log.inFiles[|exec.inFiles|..] == uploaded
    ensures |log.outFiles| >= |exec.outFiles| && log.outFiles[..|exec.outFiles|] == exec.outFiles
    ensures log.outFiles[|exec.outFiles|..] == (if exec.exitCode == Some(0) then downloaded else [])
    ensures log.stdin == exec.stdin && log.stdout == exec.stdout && log.stderr == exec.stderr
  {
    var log := exec.(inFiles := exec.inFiles + uploaded);
    if log.exitCode == Some(0) then log.(outFiles := log.outFiles + downloaded) else log
  }

  /** "/dev/" records never reach `download_files`. */
  lemma {:induction false} DownloadableSkipsDev(dev: seq<FileLog>, files: seq<FileLog>)
    requires forall f :: f in dev ==> IsDevPath(f.path)
    ensures Downloadable(dev + files) == Downloadable(files)
  {
    if |dev| > 0 {
      assert (dev + files)[1..] == dev[1..] + files;
      DownloadableSkipsDev(dev[1..], files);
    } else {
      assert dev + files == files;
    }
  }

  /**
   * After a run, `download_files` lists exactly the downloaded files (none when
   * the command failed): the stdout and stderr records the exec added never
   * appear in it, so a command writing only to stdout downloads nothing.
   */
  lemma DownloadFilesOfRun(exec: CommandLog, uploaded: seq<FileLog>, downloaded: seq<FileLog>, workDir: Path, ops: PathOps)
    requires forall f :: f in exec.outFiles ==> IsDevPath(f.path)
    ensures DownloadFiles(RunLog(exec, uploaded, downloaded).outFiles, workDir, ops)
         == (if exec.exitCode == Some(0) then DownloadFiles(downloaded, workDir, ops) else Success([]))
  {
    if exec.exitCode == Some(0) {
      DownloadableSkipsDev(exec.outFiles, downloaded);
    } else {
      DownloadableSkipsDev(exec.outFiles, []);
      assert exec.outFiles + [] == exec.outFiles;
    }
  }

  /**
   * The unzip case of the front-end tests: stdout was logged and two files were
   * extracted, newest listing first; `download_files` lists the two extracted
   * files relative to the work directory, in ascending order.
   */
  lemma UnzipScenario(ops: PathOps)
    requires ops.relativeTo("/w/_test/source-b.txt", "/w") == Some("_test/source-b.txt")
    requires ops.relativeTo("/w/_test/source-a.txt", "/w") == Some("_test/source-a.txt")
    ensures DownloadFiles([FileLog("/dev/stdout", "d0"), FileLog("/w/_test/source-b.txt", "d1"), FileLog("/w/_test/source-a.txt", "d2")], "/w", ops)
         == Success(["_test/source-a.txt", "_test/source-b.txt"])
  {
    var a, b := "_test/source-a.txt", "_test/source-b.txt";
    var outs := [FileLog("/dev/stdout", "d0"), FileLog("/w/_test/source-b.txt", "d1"), FileLog("/w/_test/source-a.txt", "d2")];
    UnzipDownloadable();
    UnzipRelativePaths(ops);
    assert DownloadFiles(outs, "/w", ops) == Success(Sort([b, a]));
    UnzipOrder();
    SortPair(b, a);
  }

  /** The two extracted names differ first at "a" and "b". */
  lemma UnzipOrder()
    ensures !Below("_test/source-b.txt", "_test/source-a.txt")
  {
    var p := "_test/source-";
    assert "_test/source-a.txt" == p + "a.txt" && "_test/source-b.txt" == p + "b.txt";
    BelowCommonPrefix(p, "b.txt", "a.txt");
  }

  /** The stdout record is dropped, the two extracted files kept in log order. */
  lemma UnzipDownloadable()
    ensures Downloadable([FileLog("/dev/stdout", "d0"), FileLog("/w/_test/source-b.txt", "d1"), FileLog("/w/_test/source-a.txt", "d2")])
         == [FileLog("/w/_test/source-b.txt", "d1"), FileLog("/w/_test/source-a.txt", "d2")]
  {
    var outs := [FileLog("/dev/stdout", "d0"), FileLog("/w/_test/source-b.txt", "d1"), FileLog("/w/_test/source-a.txt", "d2")];
    assert IsDevPath(outs[0].path);
    assert !IsDevPath(outs[1].path) by { assert outs[1].path[1] != DevPrefix[1]; }
    assert !IsDevPath(outs[2].path) by { assert outs[2].path[1] != DevPrefix[1]; }
    assert outs[1..] == [outs[1], outs[2]] && outs[1..][1..] == [outs[2]] && [outs[2]][1..] == [];
  }

  lemma UnzipRelativePaths(ops: PathOps)
    requires ops.relativeTo("/w/_test/source-b.txt", "/w") == Some("_test/source-b.txt")
    requires ops.relativeTo("/w/_test/source-a.txt", "/w") == Some("_test/source-a.txt")
    ensures RelativePaths([FileLog("/w/_test/source-b.txt", "d1"), FileLog("/w/_test/source-a.txt", "d2")], "/w", ops)
         == Success(["_test/source-b.txt", "_test/source-a.txt"])
  {
    var fb, fa := FileLog("/w/_test/source-b.txt", "d1"), FileLog("/w/_test/source-a.txt", "d2");
    assert [fb, fa][1..] == [fa] && [fa][1..] == [];
    assert RelativePaths([], "/w", ops) == Success([]);
    assert ["_test/source-a.txt"] + [] == ["_test/source-a.txt"];
    assert RelativePaths([fa], "/w", ops) == Success(["_test/source-a.txt"]);
    assert ["_test/source-b.txt"] + ["_test/source-a.txt"] == ["_test/source-b.txt", "_test/source-a.txt"];
  }
}
