/**
 * The dependency tree `fanin` and `fanout` build: file nodes and command nodes
 * alternating, each marked with the direction it was built in.
 */
module Dependencies {

  import opened CommandLogs

  /** `FileDependency`: a file version (display path and digest) and the commands linked to it. */
  datatype FileDependency = FileDependency(file: Path, digest: Digest, out: bool, next: seq<CommandDependency>)

  /** `CommandDependency`: a logged command and the files linked to it. */
  datatype CommandDependency = CommandDependency(command: CommandLog, out: bool, next: seq<FileDependency>)

  /** Every node of the tree below and including `n` carries the direction `out`. */
  predicate FileDirected(n: FileDependency, out: bool)
  {
    n.out == out && forall c :: c in n.next ==> CommandDirected(c, out)
  }

  predicate CommandDirected(c: CommandDependency, out: bool)
  {
    c.out == out && forall n :: n in c.next ==> FileDirected(n, out)
  }

  /** The log entries of a list of command nodes, in order. */
  function Commands(cs: seq<CommandDependency>): (r: seq<CommandLog>)
    ensures |r| == |cs|
    ensures forall i :: 0 <= i < |cs| ==> r[i] == cs[i].command
  {
    if |cs| == 0 then [] else [cs[0].command] + Commands(cs[1..])
  }

  /** Number of nodes in a tree. */
  function FileSize(n: FileDependency): nat
  {
    1 + CommandsSize(n.next)
  }

  function CommandsSize(cs: seq<CommandDependency>): nat
  {
    if |cs| == 0 then 0 else CommandSize(cs[0]) + CommandsSize(cs[1..])
  }

  function CommandSize(c: CommandDependency): nat
  {
    1 + FilesSize(c.next)
  }

  function FilesSize(ns: seq<FileDependency>): nat
  {
    if |ns| == 0 then 0 else FileSize(ns[0]) + FilesSize(ns[1..])
  }
}
