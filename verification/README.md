# cincan provenance model

A Dafny model of two parts of the cincan command front end.

1. The **command inspector** (`CommandInspector`). It builds the provenance tree of a file version from the command log. `fanin` answers "which commands produced this exact content, and from what". `fanout` answers "which commands consumed it, and what did they produce". The tree alternates file nodes (`FileDependency`) and command nodes (`CommandDependency`). A visited set of `path:digest` keys cuts cycles. The two `__str__` methods render the tree as indented text.
2. The **container stream demultiplexer** in `ToolImage`. This is the pure logic inside the container I/O code:
   - decoding of the 8-byte frame header;
   - routing of frames to stdout and stderr;
   - `ToolStream` length and digest accounting;
   - the `/dev/stdin`, `/dev/stdout` and `/dev/stderr` records a successful run adds to its log entry;
   - the sorted `upload_files` and `download_files` lists.

Modules, one per file:

- `Wrappers`: `Option` and `Result`.
- `CommandLogs`: `FileLog` and `CommandLog` records, the `/dev/` prefix, and abstract path operations.
- `Dependencies`: the tree datatypes.
- `Inspector`: `hash_of`, `__work_path`, `fanin` and `fanout`.
- `Render`: both `__str__` methods.
- `Frames`: the frame header and `__unpack_container_stream`.
- `ToolStreams`: `ToolStream`, frame routing, and the end of `__container_exec`.
- `Sorting`: Python's `sorted` on strings.
- `Run`: the end of `__run`.

The host and libraries are parameters:

- the regular files and their contents;
- the md5 function;
- `relative_to` and `resolve`;
- `quote_args`;
- the socket's chunking;
- the exec inspection's exit code.

`fanin` and `fanout` are one function, `Inspector.Fan`, with the direction as a parameter. The visited set is threaded through the whole traversal as a value, so siblings see each other's keys just as with the shared mutable set. Termination is by the number of unvisited keys. Every key a call can add is the anchor's key or the key of a file record in the log.

## Model

| member | source | states |
|---|---|---|
| Inspector.HashOf | cincan/command_inspector.py:98-108 | anything that is not a regular file hashes to the empty digest |
| Inspector.FileDigest | cincan/command_inspector.py:52 | a non-empty supplied digest is used as given; an empty or missing one is recomputed from the file |
| Inspector.WorkPath | cincan/command_inspector.py:42-48 | `/dev/` paths are kept as they are; other paths are made relative to the work directory, or resolved when they lie outside it |
| Inspector.FanIgnoresPathOps | cincan/command_inspector.py:42-58 | changing the path operations or the work directory changes only the display paths: the trees are equal once those are erased, and the visited sets are equal |
| Inspector.FansIgnorePathOps | cincan/command_inspector.py:50-86 | the same for `fanin` and `fanout`: the path operations and work directory decide what is displayed, never which commands are attached or where the cycles are cut |
| Inspector.KeyInjective | cincan/command_inspector.py:54 | for digests without ':', equal `path:digest` keys mean equal paths and equal digests, so the key stands for the pair |
| Inspector.Fan | cincan/command_inspector.py:50-58 | the root holds the display path, the effective digest and the direction. A key already visited gives a childless node and leaves the set unchanged. Otherwise the returned set holds the caller's keys and the root's own |
| Inspector.FanFacts | cincan/command_inspector.py:50-86 | the whole tree, at every depth. Every node carries the call's direction. Every command node lists the anchors of its entry's expanded side, one to one and in order. The file nodes, in depth-first order, share one visited set: a node whose key was in the caller's set or carried by an earlier node is a leaf, and any other node has one command child per entry matching its digest, newest first. The returned set is the caller's set plus exactly the keys visited, each of them the anchor's or a log record's |
| Inspector.Scan | cincan/command_inspector.py:60-66 | the loop over the newest k entries only ever adds keys to the visited set it is given |
| Inspector.Expand | cincan/command_inspector.py:64-65 | the loop over an entry's files from position j on gives one node per file and only ever adds keys to the visited set |
| Inspector.ScanShape | cincan/command_inspector.py:60-66 | scanning the newest k entries yields one command node per matching entry, newest first, each shaped as in `FanFacts`. The subtrees of later command nodes start from the set the earlier ones left, and the returned set is the caller's plus exactly the keys visited |
| Inspector.ExpandShape | cincan/command_inspector.py:64-65 | the file children of a command node are the anchors of the entry's expanded side from position j on, each expanded as in `FanFacts`. Each sibling starts from the set the earlier siblings left, and the returned set is the caller's plus exactly the keys visited |
| Inspector.ExpandFacts | cincan/command_inspector.py:64-65 | `ExpandShape` for the whole expanded side of an entry |
| Inspector.FanIn | cincan/command_inspector.py:50-67 | the fan-in tree's nodes all point inward. The children are the entries that wrote the digest, newest first. Each child lists the entry's inputs in order. Below that, every node follows the cut-off rule of one shared visited set that starts empty |
| Inspector.FanOut | cincan/command_inspector.py:69-86 | the fan-out tree's nodes all point outward. The children are the entries that read the digest, newest first. Each child lists the entry's outputs in order. Below that, every node follows the cut-off rule of one shared visited set that starts empty |
| Inspector.SiblingRepeatIsLeaf | cincan/command_inspector.py:55-58 | when two files of one entry carry the same key, the later one's node is a leaf, whatever the earlier one's tree was |
| Inspector.CommandRepeatIsLeaf | cincan/command_inspector.py:55-66 | when a file of a newer matching entry and a file of an older one carry the same key, the older entry's node for it is a leaf: command nodes share the visited set too |
| Inspector.RepeatIsLeaf | cincan/command_inspector.py:55-58 | at any depth, a file node whose key an earlier node of the traversal carried is a leaf |
| Inspector.AnchorRepeatIsLeaf | cincan/command_inspector.py:55-58 | below the anchor, a file version with the anchor's own key is always a leaf, so cycles are cut at any depth |
| Inspector.ReverseIndex | cincan/command_inspector.py:60 | position i of the newest-first listing is entry n-1-i of the log |
| Inspector.SelectMembers | cincan/command_inspector.py:60-62 | the filtered listing holds exactly the entries with a record of the digest on the matched side |
| Inspector.FanChildren | cincan/command_inspector.py:60-66 | an entry is a child of the anchor if and only if it is in the log and has a record with the anchor's digest on the matched side; the path is never compared |
| Inspector.NoMatchIsLeaf | cincan/command_inspector.py:60-67 | when no entry matches the digest, the tree is the anchor alone |
| Inspector.DigestExact | cincan/command_inspector.py:61 | every attached command has a record carrying exactly the anchor's digest on the matched side |
| Inspector.FanInFindsProducer | cincan/command_inspector.py:60-66 | every entry that wrote a file with the anchor's digest appears under the fan-in tree, and its children carry the digests of its inputs |
| Inspector.FanOutFindsConsumer | cincan/command_inspector.py:79-85 | every entry that read a file with the anchor's digest appears under the fan-out tree, and its children carry the digests of its outputs |
| Inspector.VisitedBound | cincan/command_inspector.py:54-58 | a whole traversal visits at most one key per file record of the log, plus the anchor's key |
| Render.FileLabel | cincan/command_inspector.py:18 | the label starts with the path. It is followed by "/" when the digest is empty, and otherwise by a space and the first 16 digest characters (all of them when it is shorter) |
| Render.Indent | cincan/command_inspector.py:19 | replacing each newline by a newline and four spaces adds four characters per newline and keeps the number of newlines |
| Render.OutdentIndent | cincan/command_inspector.py:19 | the indentation can be undone, so no child text is lost or merged |
| Render.RenderFile | cincan/command_inspector.py:17-21 | a file node's text starts with its label, and a childless node renders as its label alone |
| Render.RenderCommand | cincan/command_inspector.py:30-34 | a command node's text starts with its quoted, space-joined arguments, and a childless node renders as them alone |
| Render.RenderIsLines | cincan/command_inspector.py:17-34 | when no label contains a newline, the text is a list of lines joined by newlines. Each child's first line follows a four-character direction glyph, which differs under files and under commands. The child's further lines are shifted four columns right |
| Render.FileLineCount | cincan/command_inspector.py:17-34 | the line list of a tree has exactly one line per tree node; with single-line labels (`Render.RenderIsLines`) the rendering is that list joined by newlines, so it too has one line per node |
| Frames.BigEndianRoundTrip | cincan/frontend.py:150 | reading bytes as a big-endian number and writing the number back gives the same bytes |
| Frames.DecodeHeader | cincan/frontend.py:150-152 | the stream type is the first header byte, and the length is the big-endian value of the other seven, below 2^56 |
| Frames.HeaderRoundTrip | cincan/frontend.py:150-152 | decoding an encoded header gives back its type and length |
| Frames.HeaderRoundTripBytes | cincan/frontend.py:150-152 | every 8-byte header is the encoding of its decoded fields |
| Frames.Read | cincan/frontend.py:146 | a socket read returns at most the requested bytes, and nothing only at end of stream; the bytes read followed by what is left are the bytes there were |
| Frames.DecodeFrame | cincan/frontend.py:142-161 | fewer than 8 bytes give type 0 with an empty payload. A payload shorter than its header says is truncated. Otherwise the payload is exactly the header's length of bytes after the header |
| Frames.FrameRoundTrip | cincan/frontend.py:142-161 | an encoded frame decodes to its type and payload, whatever follows it |
| Frames.ReadFully | cincan/frontend.py:144-149 | repeated reads collect exactly the first n bytes of the stream, or report that the stream ended first |
| Frames.UnpackContainerStream | cincan/frontend.py:142-161 | reading header and payload chunk by chunk yields the frame at the front of the stream's bytes, and leaves exactly the bytes after it |
| ToolStreams.Update | cincan/frontend.py:35-37 | the length grows by exactly the data's length and the digest is fed exactly the data; nothing else changes |
| ToolStreams.UpdateTwice | cincan/frontend.py:35-37 | two updates equal one update with the concatenated data, so chunking does not matter |
| ToolStreams.FeedStdinAll | cincan/frontend.py:208-217 | reading stdin chunk by chunk counts and hashes exactly all of its bytes, and never buffers them |
| ToolStreams.Emit | cincan/frontend.py:239-244 | a routed chunk is counted, hashed, and either appended to the buffer or written out, depending on `buffer_output` |
| ToolStreams.Route | cincan/frontend.py:230-244 | type 1 reaches stdout if it is captured, type 2 reaches stderr, and any other type changes nothing |
| ToolStreams.Demux | cincan/frontend.py:224-244 | the socket loop over all the bytes the container sends: it fails only with the truncated-payload message, ends at once when fewer than 8 bytes remain, keeps the buffering mode and whether stdout is captured, and only appends to stderr's digest input and buffer. `DemuxMessages` states what each stream receives, and `ContainerIo` that the frame-by-frame loop computes it |
| ToolStreams.Exec | cincan/frontend.py:163-265 | `__container_exec` from the stdin chunks, the socket and the inspection: it fails only with the truncated-payload message, and succeeds on a socket that delivers fewer than 8 bytes. The entry carries the command and the inspection's exit code, has no records unless that code is 0 and no stdin record when stdin is not read, and every record has a `/dev/` path. `ExecLog` states the whole entry, `ExecRecords` that each record carries the md5 of exactly the bytes of its stream, and `ExecBuffered` that buffered output holds exactly the bytes sent, whatever the exit code |
| ToolStreams.ContainerIo | cincan/frontend.py:224-244 | the frame-by-frame socket loop computes the same result as demultiplexing all the socket's bytes |
| ToolStreams.DemuxStep | cincan/frontend.py:225-244 | a whole non-empty frame at the front is routed, and the loop continues with the bytes after it |
| ToolStreams.DemuxMessages | cincan/frontend.py:224-244 | for any sequence of non-empty frames, the loop succeeds. Stdout, when captured, receives exactly the type-1 payloads in order, and stderr exactly the type-2 payloads |
| ToolStreams.EmptyFrameEndsLoop | cincan/frontend.py:226-229 | a frame with an empty payload ends the loop at once, whatever follows it |
| ToolStreams.TruncatedFrameFails | cincan/frontend.py:156-159 | a stream that ends inside a payload makes the run fail |
| ToolStreams.StreamRecords | cincan/frontend.py:256-263 | records exist only for exit code 0 (not for a null one), and only for streams that carried data. Stdin goes among the inputs; stdout comes before stderr among the outputs. Each record holds the md5 of exactly what the stream carried, under a `/dev/` path |
| ToolStreams.ExitCodeOf | cincan/frontend.py:247-248 | a missing `ExitCode` entry gives 0, a null one gives no exit code, and a number gives itself |
| ToolStreams.ExecLog | cincan/frontend.py:246-263 | the log entry carries the command and the inspection's exit code. Its inputs and outputs are exactly the stream records for that exit code, so a failed or null exit code leaves both empty. Buffered output keeps each stream's raw bytes; unbuffered output keeps none. Every stream record has a `/dev/` path |
| ToolStreams.ExecRecords | cincan/frontend.py:163-265 | for a container that sends frames and exits with 0, the stdout and stderr records carry the md5 of exactly the bytes sent on those streams. They exist exactly when those bytes are non-empty (stdout only when captured). The stdin record carries the md5 of all input read. Buffered output holds the same bytes, and stdin is never kept |
| ToolStreams.ExecBuffered | cincan/frontend.py:246-254 | for any exit code, a null one included, the run succeeds on a socket of whole frames. Buffered output holds exactly the bytes the container sent on stdout (when captured) and on stderr, and stdin is never kept. Unbuffered output, or an uncaptured stdout, keeps nothing |
| Run.Downloadable | cincan/frontend.py:302-304 | the outputs whose path does not start with `/dev/`, each exactly as often as the log has it |
| Run.RelativePaths | cincan/frontend.py:303 | succeeds if and only if every path is inside the work directory, and then gives each path's relative form, in order |
| Run.DownloadFiles | cincan/frontend.py:302-304 | succeeds if and only if every non-`/dev/` output lies inside the work directory. The result is sorted and is a permutation of those outputs' relative paths, each kept as often as the output occurs |
| Run.UploadFiles | cincan/frontend.py:301 | the uploaded paths, sorted, as a permutation |
| Run.RunLog | cincan/frontend.py:282-288 | the uploaded inputs follow the exec's inputs. The downloaded outputs follow the exec's outputs only when the exit code is 0. The captured stdin, stdout and stderr are the exec's, unchanged, so `run_get_string` returns what the container sent |
| Run.DownloadableSkipsDev | cincan/frontend.py:304 | `/dev/` records in front change nothing in the download list |
| Run.DownloadFilesOfRun | cincan/frontend.py:282-304 | after a run, `download_files` lists exactly the downloaded files, or nothing when the command failed. Stream records never appear in it |
| Run.UnzipScenario | tests/test_frontend.py:56-61 | the unzip case: the stdout record is dropped and the two extracted files are listed in ascending order |
| Sorting.Sort | cincan/frontend.py:301-304 | `sorted` yields an ascending permutation of its input |
| Sorting.SortedUnique | cincan/frontend.py:301-304 | there is only one ascending permutation, so any correct sort agrees with the model's |
| Sorting.SortPair | cincan/frontend.py:301-304 | two strings out of order are swapped |

## Left out

- Docker image and container lifecycle are external services: pull, build, create, tar upload and download, kill and image removal.
- The `select` loop and stdin forwarding are left out:
  - The `select` loop's interleaving of stdin and socket reads is not modelled. The loop ends after the `select` round in which the container's stream ends (frontend.py:197, 226-229), and a stdin that is ready in that same round is still read, hashed and sent. So the stdin chunks of `ToolStreams.Exec` are those read up to the end of that round, which can include one chunk after the container's end of stream; which chunks those are depends on the interleaving, and is left to the caller. The socket arrives as its own sequence of chunks.
  - Forwarding stdin to the container (`send`, `shutdown`) and the pytest `UnsupportedOperation` fallback are OS I/O.
- Logging calls are left out.
- MD5 and file reading are abstract:
  - The md5 function is a parameter over the concatenated bytes. The 2048-byte chunked read in `hash_of` is not modelled: the md5 parameter is applied to the whole contents at once.
  - `is_file` is membership in a map of regular files.
- `pathlib.relative_to` and `resolve` are abstract parameters. Paths are their posix strings.
- `quote_args` is an abstract parameter. The shell-quoting round trip is not claimed, because `cincan/commands.py` is not part of this model.
- `CommandLogIndex` storage and JSON are not part of this model. The log is given as a sequence of entries, oldest first.
- The rest of the command line is left out: the command line of `__container_exec` (entry point and default `Cmd`), `FileResolver`, `TarTool`, `main` and argument parsing. The logged command is a parameter.
- `print_fanout` / `__print_fans` are left out: a writer-based printer that neither `fanin` nor `fanout` uses.
- `tests/test_pull.py` and `docs/conf.py` are left out: registry integration tests and documentation settings.
- Exit codes and lengths are unbounded integers. The one width that matters, the 56-bit length field, is explicit.
- Inspector.HashOf: says only that non-files hash to "". For regular files it is the md5 parameter applied to the contents, with no further property.
- Render.RenderIsLines: requires single-line labels. A label with an embedded newline, from a path or an argument containing one, renders as the same string, but is not a line list.
- An anchor whose digest is "" matches any log record whose md5 is also "": `Inspector.Matches` compares digests as strings, the empty one included.
- ToolStreams.ExecLog: without buffered output, the entry's stdin, stdout and stderr are empty. That is the default of the `CommandLog` constructor, and `cincan/command_log.py` is not part of this model.
