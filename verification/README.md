# Frontmatter splitter of zbrd/front, in Dafny

`front` separates a document's leading metadata block (the "frontmatter")
from its body. A document opens with a fence line, `---` by default. The
lines after it, up to the next fence line, are the metadata, and everything
after that closing line is the content. An input that does not open with a
fence is all content.

The repository carries the splitter three times:

- the library `Splitter` of `front.go`, which takes a configurable marker;
- the `front` command's `splitMatter` (`cmd/front/main.go`);
- the top-level program's `splitMatter` (`main.go`), which returns a
  `Split` record.

The two commands are hard-wired to `---`. All three do the same three steps:

1. A probe reads `len(delim)` bytes, where `delim` is the marker followed by
   a newline.
2. If the probe opens a fence, an iterator reads lines with
   `ReadBytes('\n')` until one equals the marker, with or without its
   newline.
3. `io.ReadAll` drains what is left into the content.

The model treats the stream as a finite byte sequence with one read
cursor.

- `Lines`: bytes, `ReadBytes('\n')` as `NextLine`, and cutting an input
  into lines and joining it back.
- `Front`: the library's `Splitter`, `NewSplitterMark`, `readMagic`,
  `readLines`, `Split` and the package-level `Split`.
- `FrontSpec`: an independent line-based definition of a split, its
  equivalence with `Front.Split` on every splitter and input, and general
  laws: closed, bare and unterminated metadata, the zero-value
  `Splitter{}`, and marker normalisation.
- `FrontCases`: the documented inputs, each derived from those laws.
- `MatterCmd`: the `front` command's `readMagic`, `matterLines` and
  `splitMatter`, and its `Output` record. Its split is proved equal to
  `Front.Split` on `NewSplitter()`.
- `MatterMain`: the top-level program's `splitMatter` and its `Split`
  record. main.go's `readMagic` and `matterLines` (main.go:126-173) are
  character for character those of cmd/front/main.go:173-220, so they are
  modelled once, in `MatterCmd`, and used here. What is proved equal to the
  command is therefore main.go's own `splitMatter` wrapper around them.
- `CommandCases`: the test table the two commands share, proved for each
  command from `FrontCases`.

Points where the code's behaviour is not what a reader might expect, and
which the model follows:

- **The probe's last byte is never compared.** The probe is `len(delim)`
  bytes long, but only the first `len(delim) - 1` are compared with the
  marker. So `"---x\nfoo"` opens a fence, and its metadata is `"\nfoo"`
  (`FrontCases.UncheckedProbeByte`).
- **One cursor in `front.go`.** `readLines` wraps its reader in
  `bufio.NewReader` (front.go:92). The reader it receives is already a
  `*bufio.Reader` with the default buffer size, and in that case Go's
  `bufio.NewReaderSize` returns the same reader rather than a new one. The
  line scan and the final `io.ReadAll` therefore share one buffer, exactly
  as in the two commands, and no read-ahead is lost.
- **`front_test.go` disagrees with `front.go`.** That file calls
  `Default.SplitReader`, which `front.go` does not define. Its `delim_only`
  row expects `"---"` to give empty content. In `front.go` a short probe
  returns its bytes as content, so `"---"` gives content `"---"`, as both
  commands' tables also expect. The model follows `front.go`
  (`FrontCases.InvalidMagic`). The other rows of `front_test.go` hold and
  are proved in `FrontCases`.
- **The zero-value `Splitter{}` is all metadata.** Its probe is empty and
  always matches. Its only fence line is the empty line, which
  `ReadBytes` returns only at end of input. So every input is all metadata
  (`FrontSpec.ZeroSplitter`).

## Model

| member | source | states |
|---|---|---|
| Lines.NextLine | front.go:94-95 | one `ReadBytes('\n')`: the line and the remaining stream together give back the input; end of input is reported exactly when no newline is left, and then nothing remains; the line is never empty on a non-empty stream; every line not at end of input ends in its only newline |
| Lines.LinesRoundTrip | front.go:94-106 | joining the successive `ReadBytes` lines of an input gives the input back byte for byte, and the lines are well-formed (each non-empty, each but the last newline-terminated) |
| Lines.LinesOfConcat | front.go:94-106 | the converse: re-cutting a joined list of well-formed lines yields the same list |
| Lines.LinesOfWhole | front.go:94-106 | cutting a joined list of whole lines into lines gives only lines of that list |
| Lines.NextLineOfComplete | front.go:95 | a newline-terminated line in front of any stream is read off exactly, leaving the stream behind it untouched |
| Front.NewSplitterMark | front.go:22-30 | the constructed splitter's delimiter is its marker plus a newline; a marker ending in a newline becomes the delimiter, and one that does not is kept as the marker |
| Front.NewSplitter | front.go:18-20 | the default splitter has marker `---` and delimiter `---\n` |
| Front.ReadMagic | front.go:60-88 | the probe returns a prefix of the input of length `min(len(input), len(delim))`, and reports a fence exactly when the input holds a full probe whose first `len(delim) - 1` bytes equal the marker |
| Front.ReadLines | front.go:90-109 | the yielded lines are whole `ReadBytes` lines (each but the last ends in its newline; the last, cut by end of input, may hold none) and none is a fence; they are the front of the stream and the unread rest its back; and either every byte was yielded and nothing is left, or exactly one whole fence line (a bare marker only at end of input) follows the last yielded line, which then ended in its newline — so the scan stops at the first fence line |
| Front.LinesCons | front.go:95-106 | one more ordinary complete line in front keeps the yielded lines whole and fence-free and the scan's ending unchanged |
| Front.ScannedCut | front.go:41-52 | the yielded lines, joined, and the unread rest form a cut of the stream: metadata without a fence line, then nothing or one whole fence line at a line boundary, then the content |
| Front.ReadLinesAfterLine | front.go:95-106 | an ordinary complete line is yielded and the scan continues on the stream after it |
| Front.ReadLinesAtFence | front.go:97-100 | a fence line (complete, or bare at end of input) stops the scan, yields nothing and leaves what follows it unread |
| Front.ReadLinesAtEnd | front.go:101-106 | a final line without a newline that is not a fence is yielded, and the scan stops |
| Front.Split | front.go:32-54 | without an opening fence the whole input is content and the metadata is empty; with one, the metadata is the front of what follows the probe and holds no fence line, the content is its back, and between them lies either nothing (no closing fence, and then no content) or one whole fence line starting at a line boundary — so the metadata stops at the first fence line and the content is everything after it |
| Front.DefaultSplit | front.go:56-58 | the package-level split on the default splitter: an input that does not open with a full `---` probe is all content |
| FrontSpec.FirstFence | front.go:97-100 | the index of the first fence line: no line before it is a fence, and the line there is one |
| FrontSpec.ReadLinesIsReference | front.go:90-109 | the yielded lines, joined, are the input's lines before the first fence line, joined, and the unread rest is exactly the lines after it (nothing if no fence line exists) |
| FrontSpec.ReadLinesYields | front.go:90-109 | the yielded list itself: the input's lines before the first fence line; when no fence line exists, all of them followed by the empty line `ReadBytes` returns at end of input after a newline or on an empty stream, unless that empty line is a fence |
| FrontSpec.YieldsStep | front.go:95-106 | an ordinary complete line in front of the stream is the first yielded line, in front of the list the stream behind it yields |
| FrontSpec.SplitIsReference | front.go:32-54 | on every splitter and input, the split is the line-based definition: all content without an opening fence; otherwise the lines before the first fence line as metadata and the lines after it as content |
| FrontSpec.ReadLinesPastLines | front.go:94-106 | complete non-fence lines in front of a stream are all yielded, and the scan then goes on as on the stream alone |
| FrontSpec.OpeningProbe | front.go:85-86 | for a constructed splitter, the marker followed by any byte at all opens a fence, and scanning starts right after that byte |
| FrontSpec.ClosedFence | front.go:39-53 | fence, plain metadata lines, closing fence line and any content: the metadata comes back verbatim, the content is everything after the closing line, and the closing line is in neither |
| FrontSpec.BareFence | front.go:95-100 | metadata closed by a bare marker at end of input: the metadata verbatim and empty content |
| FrontSpec.Unterminated | front.go:101-106 | metadata that no fence closes is not an error: all of it, last partial line included, is metadata, and the content is empty |
| FrontSpec.ZeroSplitter | front.go:85-100 | the zero-value `Splitter{}` turns every input into metadata with empty content |
| FrontSpec.NewSplitterMarkNormalises | front.go:22-30 | `m` and `m` plus a newline build the same splitter if and only if `m` does not already end in a newline |
| FrontSpec.NewSplitterMarkIdempotent | front.go:22-30 | building a splitter from a splitter's delimiter gives the same splitter back |
| FrontCases.InvalidMagic | front.go:68-76 | `""`, `"-"`, `"--"` and `"---"` are shorter than the probe: empty metadata, and content equal to the input |
| FrontCases.FenceOnly | front_test.go:30-34 | `"---\n"` gives empty metadata and empty content |
| FrontCases.EmptyBareFence | cmd/front/main_test.go:28 | on the library's default split: `"---\n---"` gives empty metadata and empty content; the row is the command's, shared through `CommandCases.CommandTable` |
| FrontCases.EmptyClosedFence | cmd/front/main_test.go:29 | on the library's default split: `"---\n---\n"` gives empty metadata and empty content; the row is the command's, shared through `CommandCases.CommandTable` |
| FrontCases.NoMatterEnd | cmd/front/main_test.go:32 | on the library's default split: `"---\nL1\nL2"` gives metadata `"L1\nL2"` and no content; the row is the command's, shared through `CommandCases.CommandTable` |
| FrontCases.NoMatterEndNewline | cmd/front/main_test.go:33 | on the library's default split: `"---\nL1\nL2\n"` gives metadata `"L1\nL2\n"` and no content; the row is the command's, shared through `CommandCases.CommandTable` |
| FrontCases.ClosedBare | cmd/front/main_test.go:36 | on the library's default split: `"---\nL1\nL2\nL3\n---"` gives metadata `"L1\nL2\nL3\n"` and no content; the row is the command's, shared through `CommandCases.CommandTable` |
| FrontCases.ClosedNoContent | cmd/front/main_test.go:37 | on the library's default split: `"---\nL1\nL2\nL3\n---\n"` gives metadata `"L1\nL2\nL3\n"` and no content; the row is the command's, shared through `CommandCases.CommandTable` |
| FrontCases.ClosedContent | cmd/front/main_test.go:40 | on the library's default split: `"---\nL1\nL2\nL3\n---\nDATA"` gives metadata `"L1\nL2\nL3\n"` and content `"DATA"`; the row is the command's, shared through `CommandCases.CommandTable` |
| FrontCases.ClosedContentNewline | cmd/front/main_test.go:41 | on the library's default split: `"---\nL1\nL2\nL3\n---\nDATA\n"` gives metadata `"L1\nL2\nL3\n"` and content `"DATA\n"`; the row is the command's, shared through `CommandCases.CommandTable` |
| FrontCases.LibraryPlain | front_test.go:36-41 | `"content"` is all content |
| FrontCases.LibraryBare | front_test.go:43-48 | `"---\nmeta\n---"` gives metadata `"meta\n"` and no content |
| FrontCases.LibraryNoContent | front_test.go:50-55 | `"---\nmeta\n---\n"` gives metadata `"meta\n"` and no content |
| FrontCases.LibraryContent | front_test.go:57-63 | `"---\nmeta\n---\ncontent"` gives metadata `"meta\n"` and content `"content"` |
| FrontCases.LibraryContentNewline | front_test.go:65-71 | `"---\nmeta\n---\ncontent\n"` gives metadata `"meta\n"` and content `"content\n"` |
| FrontCases.UncheckedProbeByte | front.go:85-86 | `"---x\nfoo"` opens a fence although its fourth byte is not a newline; the rest of that line, `"\n"`, is the first metadata line |
| MatterCmd.ReadMagic | cmd/front/main.go:173-201 | the four-byte probe returns a prefix of length `min(4, len(input))` and reports a fence exactly when a full probe starts with `---`, whatever its fourth byte |
| MatterCmd.MatterLines | cmd/front/main.go:203-220 | no yielded line is `---` or `---\n` |
| MatterCmd.MatterLinesIsReadLines | cmd/front/main.go:203-220 | the command's line scan is the library's scan on the default splitter, on every stream |
| MatterCmd.SplitMatter | cmd/front/main.go:148-171 | without a `---` probe the whole input, probe bytes included, is content and the metadata is empty |
| MatterCmd.SplitMatterIsDefault | cmd/front/main.go:148-171 | the command splits every input exactly as the library's `Split` on `NewSplitter()` does |
| MatterCmd.SetContent | cmd/front/main.go:81-84 | the content is replaced, and the metadata and path are unchanged |
| MatterCmd.SetContentOverwrites | cmd/front/main.go:81-84 | a second `SetContent` overrides the first, and setting the current content changes nothing |
| CommandCases.CommandTable | cmd/front/main_test.go:20-41 | every row of the command's test table |
| MatterMain.SplitMatter | main.go:101-124 | without a `---` probe the whole input is content with no matter; with one, the matter and content cut the input after the four-byte probe as `Front.Split` cuts it: matter without a fence line, then nothing or one whole `---` fence line, then the content |
| MatterMain.SplitMatterAgrees | main.go:101-173 | the program's `Split` record holds exactly the command's metadata and content, which are the library's `Split` on `NewSplitter()` |
| CommandCases.ProgramTable | main_test.go:15-36 | every row of the program's test table |
| MatterMain.ResplitContent | main.go:114-123 | content that does not itself start with `---` splits again into no matter and the same content |

## Left out

- Command-line handling, usage and version text, `init`, `main` and `exit`: these are process plumbing with no splitting logic.
- Opening input and output files (`Options.Reader`/`Writer`, `openInput`/`openOutput`): I/O only.
- YAML decoding, JSON encoding and `parseFront`/`parseYAML`/`writeOutput`: these call the goccy/go-yaml and encoding/json libraries, which are not part of this model. `Output`'s metadata is a type parameter, and its content is kept as bytes rather than a Go string.
- cmd/front/run.go is not part of this model: it is an I/O pipeline built on a `SplitReader` API that front.go does not define.
- I/O errors other than end of input: `readMagic` swallows them, and on a finite in-memory stream `io.ReadAll` never fails. So the error result is always nil and is not modelled.
- The iterator's early-stop branch (`!yield`): the range loops never break, so it is never taken.
- Buffer sizes: reads are modelled on a finite byte sequence with one cursor.
- Bytes are modelled as `char`: the splitter only compares bytes for equality and looks for the newline byte.
- Front.NewSplitterMark: the empty marker, on which Go panics when it indexes `m[len(m)-1]`, is excluded by the precondition.
- Front.DefaultSplit: its own contract states only the unfenced case; the fenced case is `Front.Split`'s contract and `FrontSpec.SplitIsReference`, since it is `Split` on `NewSplitter()`.
- MatterCmd.SplitMatter: its own contract states only the unfenced case; the rest follows from `MatterCmd.SplitMatterIsDefault`.
- Front.ReadLines: its contract fixes the yielded bytes, the fence and the rest, but leaves open whether the empty line that `ReadBytes` returns at end of input is yielded as a last line (it adds no bytes); the joined bytes are stated for every input by `FrontSpec.ReadLinesIsReference`, and the exact list, trailing empty line included, by `FrontSpec.ReadLinesYields`.
- MatterCmd.MatterLines: its own contract states only that no fence line is yielded; the rest follows from `MatterCmd.MatterLinesIsReadLines`.
