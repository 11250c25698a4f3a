# cii: history enrichment and platform handling, in Dafny

`cii` prints a report about a container image: the platforms it is published for,
with their sizes, and the build history of one platform, with the size of every
layer and build commands reformatted for reading. This project models the
part of `cii` that does that work on data. It leaves out the part that talks to
the registry or the terminal.

- **Platform** (`util.go`): `parsePlatform` splits an `os/arch[/variant]` string on
  every `/`. It accepts two or three pieces, and empty pieces are allowed.
  `platformToString` turns an index entry's platform back into such a string.
  `imagePlatformSize` adds up the layer sizes of one platform.
- **ShellFormat** (`history.go`, `shellFormatter`): the first word of a `created_by`
  command is cut at the first white space. Its base name, as `filepath.Base`
  gives it, is tested against the unanchored pattern `sh|bash`. Only then is the
  whole command parsed and reprinted by the shell library. A parse error gives
  back the command unchanged, together with the error.
- **History** (`history.go`): `updateLayerSize` walks the history records in place.
  A running counter of the records with data picks the layer whose size labels the
  next such record. Empty records get `"0B"`. `prepareImageHistory` replaces each
  time stamp by the record's age. It formats every command that is not a `#(nop)`
  metadata instruction, unless formatting is switched off. It stops at the first
  time stamp that does not parse.
- **Render** (`history.go`, `writeHistory`): the counts of data and empty layers,
  the image's age, then one block per record. A multi-line command is printed as
  a tab-indented block.

The records are a class, `ImageHistory`, holding an `array` of `HistoryEntry`
values, because the source updates the elements of its slice in place.
`UpdateLayerSize` and `PrepareImageHistory` are methods with loops, proved
against the specification functions `Correlate`, `FirstUnparsable` and
`PrepareEntry`. The lemmas about those functions carry the properties. Three
outside services are parameters:
- `bytesSize: int -> string` stands for `units.BytesSize`.
- `age: string -> Result<string, string>` stands for the RFC 3339 parse (section 5.6
  of RFC 3339), followed by `units.HumanDuration(time.Since(...))` at a fixed now.
- `parsePrint: string -> Result<string, string>` stands for the mvdan.cc/sh parser
  followed by its printer.

Four behaviours of the code are easy to miss, and the model keeps them as written:
- When a record with data has no layer left, the source does not raise a
  layer-count mismatch error. It indexes the layer slice unchecked, which panics.
  `UpdateLayerSize` therefore *requires* that there be at least as many layers as
  records with data. Surplus layers are ignored (`SurplusLayersIgnored`).
- The shell-name test is the unanchored `sh|bash`, that is "contains `sh`"
  (`MatchesShellPattern`). An `ssh`, `zsh` or `fish` step is therefore
  parsed as a shell program too (`UnanchoredPatternAcceptsOtherPrograms`).
- `platformToString` does not give `""` for a platform that lacks os or
  architecture but has a variant. It gives `"/variant"`, which parses back as an
  empty os with the variant as architecture (`VariantOnlyPlatformIsMisread`).
- The round trip `parse(format(p)) == p` needs non-empty os and architecture. It
  also needs all three fields to be free of `/` (`PlatformRoundTrip`).

## Model

| member | source | states |
|---|---|---|
| `Strings.SplitOn` | util.go:88 | `strings.Split` on one character gives one more piece than there are separators |
| `Strings.SplitPiecesWithoutSeparator` | util.go:88 | no piece of `strings.Split` contains the separator |
| `Strings.JoinSplit` | history.go:85 | joining the pieces of a split with the separator gives back the original string |
| `Strings.TrimNewline` | history.go:141 | `strings.TrimSuffix(s, "\n")` removes at most one newline, and removes it whenever the text ends in one |
| `Strings.ContainsChar` | history.go:83 | `strings.Contains(s, "\n")` holds exactly when `s` has a newline character |
| `Strings.Contains` | history.go:83 | `strings.Contains`: an occurrence is never longer than the text searched |
| `Strings.ContainsAt` | history.go:83 | text found at some offset is contained |
| `Strings.ContainsOffset` | history.go:83 | whatever is contained is found at some offset, which the lemma returns; with `ContainsAt`, `Contains` holds exactly when the text occurs at an offset |
| `Strings.NatToString` | history.go:58 | `%d` of a counter is a non-empty string of decimal digits without a leading zero, and those digits, read in base 10, give back the counter |
| `Platform.ParsePlatform` | util.go:86-104 | fails exactly when the string has no `/` or more than two, with the source's two messages; on success no field contains `/`, and two pieces leave the variant empty |
| `Platform.ParsedPlatformRebuildsString` | util.go:86-104 | a parsed string is exactly `os/arch` or `os/arch/variant` of the parsed fields |
| `Platform.PlatformToString` | util.go:106-115 | the result is empty exactly when os or architecture is missing and there is no variant; it starts with `os/arch` when both are set, and ends with `/variant` whenever a variant is set |
| `Platform.ParseTwoPieces` | util.go:86-104 | `os/arch` built from slash-free pieces parses back to exactly that os and architecture, with an empty variant |
| `Platform.ParseThreePieces` | util.go:86-104 | `os/arch/variant` built from slash-free pieces parses back to exactly those three fields |
| `Platform.PlatformRoundTrip` | util.go:86-115 | a platform with non-empty os and architecture and no `/` in any field survives `platformToString` then `parsePlatform` |
| `Platform.StringRoundTrip` | util.go:86-115 | a parsed string with os and architecture set is reproduced by `platformToString`, except for `os/arch/` |
| `Platform.IncompletePlatformIsRejected` | util.go:69-73 | an index entry without os or architecture and without variant formats to `""`, which `parsePlatform` rejects, so the platform table aborts |
| `Platform.VariantOnlyPlatformIsMisread` | util.go:106-115 | with os or architecture empty, a non-empty variant is still appended (`"/variant"`), and it parses back as an empty os with the variant for architecture |
| `Platform.EmptySegmentsAccepted` | util.go:88-103 | `"/"` parses, without error, to an empty os and an empty architecture |
| `Platform.TotalSizeOrderIndependent` | util.go:117-123 | the summed size is the same for any order of the same layers |
| `Platform.ImagePlatformSize` | util.go:117-123 | the loop returns the size label of exactly the sum of all layer sizes |
| `ShellFormat.FirstField` | history.go:130 | the first piece of the `\s+` split is the longest prefix without white space; the command goes on with white space right after it |
| `ShellFormat.Base` | history.go:131 | `filepath.Base` never returns the empty string, and only the root `/` contains a slash |
| `ShellFormat.BaseOfPath` | history.go:131 | `filepath.Base` gives `.` for the empty path and `/` for a path of slashes; otherwise it gives the last element: the non-empty, slash-free end of the path without its trailing slashes, starting at the beginning or right after a slash |
| `ShellFormat.ShellName` | history.go:130-131 | the name tested is non-empty and has no white space, and it is `.` when the command starts with white space |
| `ShellFormat.MatchesShellPattern` | history.go:132-133 | the unanchored `sh` or `bash` pattern matches a name exactly when the name contains `sh` |
| `ShellFormat.ShellNameInFirstWord` | history.go:130-133 | a shell name containing `sh` means that the command's first word contains `sh` |
| `ShellFormat.ShellFormatter` | history.go:129-144 | identity without error unless the shell name contains `sh`; on a parse error, the original command with the parser's error; on success, the printed text with one trailing newline dropped, and no error; an error always comes with the original text |
| `ShellFormat.PlainWordIsShellName` | history.go:130-131 | a first word without white space or slashes, ended by white space or by the end of the command, is itself the shell name |
| `ShellFormat.PathWordIsShellName` | history.go:130-131 | a first word written as a path, `dir/word`, has its last element `word` as the shell name, whatever the directory |
| `ShellFormat.BinShIsShell` | history.go:130-133 | a `/bin/sh -c` command has shell name `sh` and passes the shell-name test, whatever the script |
| `ShellFormat.UnanchoredPatternAcceptsOtherPrograms` | history.go:130-133 | every plain first word that contains `sh` anywhere, such as `ssh`, `zsh`, `fish` or `bashrc`, passes the shell-name test |
| `History.ImageHistory.constructor` | history.go:18-27 | a history holds its records, in order, and the image's creation time |
| `History.NonEmptyCount` | history.go:117-122 | there are never more records with data than records |
| `History.Correlate` | history.go:116-127 | the zipper of records and layers labels every record and keeps their number |
| `History.CorrelateAt` | history.go:117-125 | a record with data gets the label of layer k, where k counts the records with data before it, and that layer exists; an empty record gets `"0B"`; no other field changes |
| `History.LayersConsumedInOrder` | history.go:119-122 | a later record with data uses a strictly later layer |
| `History.EveryLayerUsed` | history.go:119-122 | every layer below the number of records with data labels one of them |
| `History.SurplusLayersIgnored` | history.go:116-127 | layers beyond the records with data do not affect the result |
| `History.CorrelateExample` | history.go:116-127 | records (data, empty, data) and layers (100, 250) are labelled with the size of 100, then `"0B"`, then the size of 250 |
| `History.UpdateLayerSize` | history.go:116-127 | the in-place loop with its running counter leaves exactly the correlation of the old records with the layers |
| `History.FirstUnparsable` | history.go:97-101 | every time stamp before the returned index parses, and the one at it does not |
| `History.PrepareEntry` | history.go:102-111 | the age replaces the time stamp; a `#(nop)` command or `noformat` leaves the command and its error field alone; otherwise the formatter's text is stored, and its error is stored only when there is one; size and empty flag are kept |
| `History.FormatErrorOnlyFromFailedShellParse` | history.go:103-109 | a record acquires a format error only when formatting was on, the command was not `#(nop)`, its shell name contains `sh` and parsing failed, and its command text is then unchanged |
| `History.PrepareImageHistory` | history.go:96-114 | records before the first unparsable time stamp are prepared; that record and those after it are untouched; the error is that stamp's parse error, and there is none when all parse |
| `Render.CountLayers` | history.go:48-56 | the data-layer count is the number of records with data, and the two counts add up to the number of records |
| `Render.LayerCounts` | history.go:57-60 | the report opens with two empty lines, then the line of the data-layer count and the line of the empty-layer count, in decimal |
| `Render.LayerCountsDetermineCounts` | history.go:57-60 | different counts give different opening lines, so the counts can be read back from the report |
| `Render.AgeAndPlatform` | history.go:65-68 | with an age and a platform free of newlines, the age has its own line, followed by two empty lines, the platform's line and an empty line |
| `Render.CreatedByText` | history.go:83-91 | the `created_by` field always ends with a blank line, and a multi-line command opens with a line holding only `|` |
| `Render.EntryBlock` | history.go:69-91 | a record's block opens with the line `layer: ` and the number i+1 in decimal, closes with the `created_by: ` field as `CreatedByText` lays it out, and so ends with a blank line that separates it from the next block |
| `Render.EntryBlockLines` | history.go:69-91 | with newline-free fields, the block's lines are exactly: the layer number, `size: ` and the size label, `empty_layer: ` and the flag, `created: ` and the age, the `shell format error: ` line only when there is an error, then the lines of the `created_by` field |
| `Render.EntryBlockShowsFields` | history.go:72-77 | whatever the fields hold, the size label, the empty flag and the age each appear in the block on a line of their own |
| `Render.SplitIndentLines` | history.go:85-87 | newline-free lines printed behind tabs split back into those tab-prefixed lines |
| `Render.CreatedByLayout` | history.go:83-91 | a one-line command is printed inline and followed by a blank line; a multi-line one is printed as a line holding a vertical bar, then each of its lines behind a tab, then a blank line, and these lines join back to the command |
| `Render.FormatErrorShown` | history.go:78-81 | a stored format error always appears in the record's block |
| `Render.WriteEntries` | history.go:69-92 | one block per record, in record order, numbered from 1 |
| `Render.WriteHistory` | history.go:42-94 | the counts come first; if the image time stamp does not parse, the report stops there with that error; otherwise the age, the platform and every record's block follow |

## Left out

- Registry access and JSON decoding (`getImageHistory`, `getImagePlaformManifest`,
  `getImageManifest`) and the per-platform manifest lookups of `writeImageInfo` are
  not modelled: they are network I/O. Records enter the model through the
  `ImageHistory` constructor.
- main.go is not part of this model: flag parsing, `os.Exit`, `log.Fatalf` and writing
  to standard output are command-line plumbing.
- Time: `time.Parse`, `time.Since` and `units.HumanDuration` form the parameter `age`.
  Durations are not modelled, so neither is the ordering of ages.
- `age` is one function, so every age in a report is taken at the same instant. The
  source calls `time.Since` afresh for each record and for the image, so its ages can
  differ by the time the loop takes.
- `units.BytesSize` (floating-point formatting) is the parameter `bytesSize`.
- The mvdan.cc/sh parser and printer form the parameter `parsePrint`. Shell grammar is not modelled.
- Colour escape codes are left out: the report is modelled with colour switched
  off. The `%17s`/`%71s` padding of the platform table is left out with the rest of
  `writeImageInfo`.
- `Platform.ImagePlatformSize`: the sum is over unbounded integers, so the overflow of
  Go's `int` is not modelled. On 64-bit targets it needs layers totalling over 8 EiB;
  on 32-bit targets (386, arm), where `int` has 32 bits, over 2 GiB.
- Go `error` values are their message strings. `v1.Platform` is represented by
  `ImagePlatform`; its other fields stay unset in the source and are not modelled.
- Go strings are byte strings; here they are sequences of characters. The model's
  white space is that of RE2's `\s` (tab, newline, form feed, carriage return,
  space); `filepath.Base` follows Go's Unix behaviour.
- `PrepareImageHistory` stores each record's new value, computed by `PrepareEntry`,
  in one assignment, where the source assigns its fields one by one. Nothing else can
  see the record in between, so the result is the same.
- `WriteHistory` calls `WriteEntries` for its second loop, which the source writes inline.
