# k8split in Dafny

k8split splits a multi-document Kubernetes YAML file into one file per
resource. This project models the command's body (the `Run` function of
`main.go`) and proves what it does with its input:

- **Chunking** (`chunking.dfy`) chooses the document separator and cuts the
  input. The line break is LF, or CRLF when the input holds a CRLF and the
  program runs on Windows. The separator is line break, `---`, line break.
  The input is cut with Go's `bytes.Split`: at each leftmost match, with no
  overlap. One trailing empty part is then dropped. Proved: joining the
  parts with the separator rebuilds the input; no part holds the separator;
  there is one part more than there are separator matches; an empty input
  gives no chunks. A trailing separator removes exactly one part unless it
  overlaps the last document: `"\n---\n---\n"` ends in a separator but
  yields two chunks for one counted match.
- **Manifest** (`manifest.dfy`) reads the resource named by one parsed
  document, checking the fields in the program's order:
  - a document that does not parse ends the run;
  - an empty document is skipped;
  - `kind` must be a string;
  - `metadata` must be a mapping;
  - `metadata.name` must be a string;
  - `metadata.namespace` must be a string, except that a resource of kind
    `Namespace` without one is its own namespace.

  It also builds the file name `kind__name__namespace.yaml`. That name
  identifies a resource as long as kind and name hold no underscore.
  Otherwise two resources can share it: kind `a__b` with name `c`, and kind
  `a` with name `b__c`.
- **Splitter** (`splitter.dfy`) runs the loop over the chunks. Each write
  holds its chunk followed by a newline. A file name already written in this run
  is skipped. The first fault ends the run: a parse error, a missing field,
  or a failed write. The imperative methods `CutChunks`, `WriteChunks` and
  `SplitManifests` follow the source step by step, including the mutable
  set of created files. Each is proved equal to the functional
  specification `Outcome`/`Process`. About that specification it is proved
  that:
  - every write comes from the first chunk naming its file, in document
    order;
  - every such chunk before the end of the run is written;
  - a failed run stops at the first faulty chunk, and a run without a fault
    met no faulty chunk;
  - no file name is written twice.

The environment is taken as parameters:

- the file contents as `d`;
- `runtime.GOOS == "windows"` as `onWindows`;
- the YAML parser as a function `parse` from a chunk to a `Parsed` document;
- the outcome of writing a file as `writeOk`, a function of the file name.
  A run never writes the same name twice, so this loses nothing.

## Model

| member | source | states |
|---|---|---|
| Chunking.FindFrom | main.go:62 | a match found from position k lies at or after k, and the separator occurs there |
| Chunking.FindFromLeftmost | main.go:62 | the match found is the leftmost one at or after k; no match is found exactly when the separator does not occur from k on |
| Chunking.ContainsIffFound | main.go:57 | `bytes.Contains` holds exactly when a search from the start finds a match |
| Chunking.Linebreak | main.go:55-60 | the line break is CRLF exactly when the program runs on Windows and the input contains CRLF; otherwise it is LF |
| Chunking.Separator | main.go:55-62 | the separator is CRLF `---` CRLF in the Windows-with-CRLF case and LF `---` LF otherwise |
| Chunking.Split | main.go:62 | `bytes.Split` always returns at least one part |
| Chunking.SplitJoin | main.go:62 | joining the parts with the separator gives back the input |
| Chunking.SplitPartsSeparatorFree | main.go:62 | no part contains the separator |
| Chunking.SplitWithoutSeparator | main.go:62 | the input does not contain the separator exactly when it splits into the single part itself |
| Chunking.SplitCount | main.go:62 | the number of parts is the number of non-overlapping matches (`bytes.Count`) plus one |
| Chunking.SplitAppendSeparator | main.go:62 | appending a separator that does not overlap the last part adds exactly one empty part |
| Chunking.Chunks | main.go:62-66 | the chunks are a prefix of the parts, at most one shorter, and shorter exactly when the last part is empty |
| Chunking.ChunkCount | main.go:62-66 | empty input gives no chunks; non-empty input without a separator is one chunk; the chunk count is the match count, plus one unless the last part is empty |
| Chunking.TrailingSeparatorDropped | main.go:62-66 | with a non-overlapping trailing separator, the chunks are the parts of what precedes it, and there are as many chunks as matches |
| Chunking.OverlappingTrailingSeparator | main.go:62-66 | an input that ends in the separator can still yield more chunks than matches: `"\n---\n---\n"` gives two chunks for one match |
| Manifest.Examine | main.go:73-101 | for each verdict, the exact condition on the parsed document that gives it, checked in the program's order; a resource carries the document's kind and name, and its namespace or, for kind `Namespace` only, its name |
| Manifest.ExamineManifest | main.go:84-101 | a document stating kind, metadata.name and metadata.namespace yields exactly that resource, whatever other fields it has |
| Manifest.NamespaceDefault | main.go:94-101 | without a string namespace, kind `Namespace` defaults the namespace to the name and every other kind is rejected |
| Manifest.Filename | main.go:103 | the name starts with the kind and ends in `.yaml`; FilenameInjective and FilenameCollision state when it identifies the resource |
| Manifest.FilenameInjective | main.go:103 | when kinds and names hold no underscore, two resources share a file name exactly when they are equal |
| Manifest.FilenameCollision | main.go:103 | two distinct resources whose kind or name contains `__` can get the same file name |
| Splitter.Step | main.go:73-117 | a chunk is skipped exactly when it is blank or its file already exists; it is written exactly when its file is new and the write succeeds, with the chunk plus a newline; a fault records the chunk's index |
| Splitter.StepFaults | main.go:75-117 | a chunk that does not parse raises a parse error; an invalid document raises a schema error naming its missing field; a new file whose write fails, and only that, raises a write error naming the file |
| Splitter.Process | main.go:68-118 | a fault lies at one of the chunks handled, and there are no more writes than chunks; ProcessWrites and DuplicateSkipped state what is written |
| Splitter.ProcessWrites | main.go:68-118 | the writes come from the first chunk naming each file, in document order; every such chunk before the run's end is written; a faulty run stopped at the first faulty chunk; a run without a fault met no faulty chunk |
| Splitter.Outcome | main.go:55-118 | a fault lies at one of the input's chunks, and there are no more writes than chunks; FilenamesDistinct and FaultEndsRun state what the run does |
| Splitter.FaultEndsRun | main.go:75-117 | a chunk that does not parse, lacks a required field, or whose due write fails ends the run with a fault at that chunk or an earlier one |
| Splitter.FilenamesDistinct | main.go:105-110 | no file name is written twice in a run |
| Splitter.CutChunks | main.go:55-66 | the imperative line-break choice, split and trim yield the chunks of the input |
| Splitter.WriteChunks | main.go:68-118 | the loop with its mutable set of created files gives the report of the specification `Process` |
| Splitter.SplitManifests | main.go:55-118 | the whole command gives the report of the specification `Outcome` |
| Splitter.SingleResource | main.go:62-116 | one document naming Pod `foo` in namespace `bar` produces the single file `Pod__foo__bar.yaml` with the document and a newline |
| Splitter.DuplicateSkipped | main.go:105-109 | of two chunks naming the same file, only the first is written and the second is skipped without a fault |

## Left out

- Command-line handling (main.go:16-39, 122-128): the flag and argument checks are cobra plumbing.
- The checks that the output directory and the input file exist, and the reading of the file (main.go:43-51). These are I/O; the contents are the parameter `d`.
- Log output (main.go:53, 70, 107, 112) and the text of fatal messages. The message at main.go:97 names `metadata.name` where the namespace is missing; the model records the `NoNamespace` problem instead.
- YAML parsing (yaml.v2's `Unmarshal`). It is the parameter `parse`, so the model holds for any parser.
- Nested mapping keys that are not strings are not kept. They can never match the lookups of `name` or `namespace`.
- The output path `outDir/filename` and the file mode 0644 (main.go:114). A write is a file name and its contents, and its success is the parameter `writeOk`.
- The difference between `log.Fatal` and the panic of the single-value type assertion at main.go:89. Both end the run. The model reports both as a fault with the index of the chunk.
- How file names map to files on disk. Deduplication compares the exact name (main.go:105), so on a case-insensitive file system two names differing only in case are written to one file, the second overwriting the first; the model speaks of file names only.
- Files written before a fault stay on disk. The model reports those writes next to the fault; it does not model removing or overwriting files left by earlier runs.
