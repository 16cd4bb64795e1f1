# goconf: an INI-style configuration reader, modelled in Dafny

goconf loads one or more INI-style files into a single store of the form
section ⇒ key ⇒ value, then answers lookups. The model covers:

- building the file list (primary file first, then the extras);
- loading the files in order and stopping at the first failure;
- the line loop of `read`, which starts each file in the section `default`;
- the classification of a trimmed line as blank, comment, `[section]` header, or
  `key = value` assignment;
- stripping inline comments and surrounding quotes from a value;
- `setValue`, which creates the inner map of a section the first time that section
  is written;
- `GetValue`, which reads the empty section name as `default`.

The project has four modules:

- `GoStrings` (gostrings.dfy) models the Go `strings` functions the reader calls:
  `TrimSpace`, `Trim(·, "\"")`, `Split` on one character, and index search. Each
  function comes with lemmas that state what it computes.
- `IniLine` (iniline.dfy) is the pure per-line logic. `ClassifyLine` and
  `ParseAssignment` classify one trimmed line. `StripInlineComments` is the imperative
  comment loop, proved to compute the pure `StripAll`. `Unquote` removes quotes.
- `Goconf` (goconf.dfy) holds the store and the `Config` class. The class has the
  fields `fileName`, `keys` and `data`, and methods that mirror the Go methods:
  `SetValue`, `GetValue`, `Read`, `LoadFile`, and the module-level `LoadConfig`. Each
  method is proved against a pure specification function:
  `Put`, `Run`/`ReadText`, `LoadOne` and `LoadFiles`.
- `Properties` (properties.dfy) holds lemmas over those specification functions:
  - splitting into lines loses nothing;
  - what each kind of line does to the store and to the current section;
  - later writes win;
  - where a formatted entry is stored;
  - loading stops at the first failing file and keeps the earlier files' entries.

Modelling decisions:

- **The two index-out-of-range panics.** These are `strings.Split(line, "=")[1]` on a
  line without `=`, and `value[0]` on a value that is empty after comment stripping.
  They are modelled as the explicit outcome `Malformed(MissingSeparator)` or
  `Malformed(EmptyValue)`. The read stops at that line, and the store keeps the
  entries set before it. `Read` returns `Panicked(reason)`, and `LoadConfig` returns
  `ParsePanic(path, reason)`.
- **The file system.** It is a parameter `fs: map<string, string>` that maps each
  path that opens to its contents. A path missing from `fs` is an `os.Open` failure.
  A map aligned with nothing needs no precondition tying it to the file list, and it
  gives the same contents to a path that is listed twice.
- **`bufio.Reader.ReadString('\n')`.** It is modelled by `Chunks`. `Chunks` yields
  each piece with its `\n`, and the last piece runs to the end of the text. That last
  piece is the one that comes with `io.EOF`.
- **A `continue` on the last piece.** The `switch` cases for `[`, `;` and `#`
  (config.go:91-93) `continue` without reaching the EOF test at config.go:114. On the
  last piece, the next `ReadString` returns `""` with `io.EOF`, and the loop then
  breaks with the same store. The model ends the loop at the last piece directly.
- **Characters.** Strings are `seq<char>`, while Go strings are bytes. Two facts
  make the two views agree here. First, the characters the code tests by index
  (`[`, `]`, `;`, `#`, `"`) are ASCII, so the first and last positions it examines
  hold the same character in either view. Second, `Split` and `Contains` on `=`,
  `;` and `#` match the same places in either view, because UTF-8 never puts an
  ASCII byte inside a multi-byte character.

Three behaviours of config.go that the model follows literally:

- The value is the text between the first and the second `=`
  (`strings.Split(line, "=")[1]`), so `k = a = b` stores `a`.
- Quote removal is `strings.Trim(value, "\"")`, which strips only the leading and
  trailing runs of `"`, so `"a"b"` becomes `a"b`.
- A line without `=`, and a value that is empty after comment stripping, index out
  of range; the model stops the read there, as described above.

## Model

| member | source | states |
|---|---|---|
| GoStrings.TrimSpace | config.go:78 | no contract of its own: `strings.TrimSpace` over the ASCII white-space set, as TrimFunc with IsSpace; see TrimLeftSpec, TrimRightSpec, TrimFuncParts, TrimFuncExact |
| GoStrings.TrimQuotes | config.go:108 | no contract of its own: `strings.Trim(value, "\"")`, as TrimFunc with IsQuote; see TrimFuncParts, TrimFuncExact |
| GoStrings.IndexOf | config.go:102-103 | the position it returns is at most the length; what it finds is stated in IndexOfSpec |
| GoStrings.Split | config.go:96-98 | there is always at least one piece; what the pieces are is stated in SplitSpec, JoinSplit, SplitJoin |
| GoStrings.TrimLeftSpec | config.go:78 | the left trim keeps a suffix, drops only characters of the trimmed class, and what it keeps does not start with one |
| GoStrings.TrimRightSpec | config.go:78 | the right trim keeps a prefix, drops only characters of the trimmed class, and what it keeps does not end with one |
| GoStrings.TrimFuncParts | config.go:78 | every string is a run of trimmed characters, then the trimmed result, then another such run; the result's ends are not trimmed characters |
| GoStrings.TrimFuncExact | config.go:108 | trimming `a + m + b`, where `a` and `b` are runs of the class and `m`'s ends are outside it, yields exactly `m` |
| GoStrings.TrimFuncWithin | config.go:103 | trimming adds no character |
| GoStrings.TrimFuncKeepsHead | config.go:103 | a string whose first character is not trimmed keeps that character in front |
| GoStrings.TrimSpaceTrailing | config.go:78 | white space appended to a line does not change its trimmed form |
| GoStrings.IndexOfSpec | config.go:102 | the search finds the first occurrence, and finds none exactly when the character does not occur |
| GoStrings.SplitSpec | config.go:96-98 | the first piece is the text before the first separator; no piece holds the separator; there is one piece exactly when there is no separator |
| GoStrings.JoinSplit | config.go:96-98 | splitting loses nothing: joining the pieces gives back the input |
| GoStrings.SplitJoin | config.go:96-98 | splitting undoes joining pieces that hold no separator |
| IniLine.ClassifyLine | config.go:84-109 | no contract of its own: the classifier of one trimmed line, branch by branch; see ClassifyLineCases, AssignFields |
| IniLine.ParseAssignment | config.go:94-110 | no contract of its own: the default branch; see ParseAssignmentCases, AssignFields, SecondSeparatorDropped |
| IniLine.CutAt | config.go:102-103 | no contract of its own: one round of the comment loop; see CutAtSpec, CutAtFirst |
| IniLine.StripAll | config.go:100-105 | no contract of its own: the comment loop over a list of markers; see StripAllSpec, NoMarkers, CommentLedStrips |
| IniLine.Unquote | config.go:107-109 | no contract of its own: quote removal behind its guard; see UnquoteSpec, UnquoteRuns, LoneQuote |
| IniLine.ClassifyLineCases | config.go:84-109 | Blank iff the line is empty; Header iff the line is bracketed, and the line is `[` name `]`; Comment iff the line starts with `[`, `;` or `#` and is not a header; otherwise a missing `=` is the MissingSeparator failure, and an assignment holds no `=`, `;` or `#` in its value |
| IniLine.ParseAssignmentCases | config.go:94-110 | the default branch yields an assignment or a failure; MissingSeparator occurs exactly when the line has no `=` |
| IniLine.AssignFields | config.go:96-98 | the key is the trimmed text before the first `=`; the value comes from the text between the first and the second `=` |
| IniLine.SecondSeparatorDropped | config.go:98 | `k=v=w` reads exactly like `k=v` |
| IniLine.CutAtSpec | config.go:102-103 | one round of comment stripping removes the marker, adds no character, and leaves a marker-free value alone |
| IniLine.CutAtFirst | config.go:102-103 | when the marker occurs, the value becomes the trimmed text before its first occurrence |
| IniLine.StripAllSpec | config.go:100-105 | after comment stripping no marker remains, no character is added, and a value without markers is unchanged |
| IniLine.StripInlineComments | config.go:100-105 | the loop over `;` then `#` computes StripAll; its result holds neither `;` nor `#` |
| IniLine.NoMarkers | config.go:100-105 | a value without `;` and `#` leaves comment stripping unchanged |
| IniLine.CommentLedStrips | config.go:100-105 | a value that starts with `;` or `#` strips to the empty value |
| IniLine.CommentedOutValue | config.go:98-107 | `k = #x` and `k = ; x` are the empty-value failure |
| IniLine.UnquoteSpec | config.go:107-109 | quote removal adds no character, and its result is not wrapped in `"` |
| IniLine.UnquoteRuns | config.go:107-108 | whole leading and trailing runs of `"` go; the text between them stays |
| IniLine.UnquoteQuoted | config.go:107-108 | `"inner"` becomes `inner` when `inner` neither starts nor ends with `"` |
| IniLine.InnerQuoteKept | config.go:108 | `"a"b"` becomes `a"b`: inner quotes are kept |
| IniLine.LoneQuote | config.go:107-108 | the one-character value `"` starts and ends with `"` and trims to the empty value |
| IniLine.ParseLoneQuote | config.go:96-110 | the line `k = "` stores the empty value under `k` |
| IniLine.ParseFormatted | config.go:96-110 | the line `k = v` reads back as the assignment of `v` to `k` for a plain key and value |
| IniLine.ParseQuoted | config.go:96-109 | the line `k = "inner"` reads back as the assignment of `inner` to `k` |
| Goconf.Get | config.go:134 | no contract of its own: the lookup `data[section][key]`, where a missing section reads as empty |
| Goconf.Chunks | config.go:77 | there is always at least one piece; what the pieces are is stated in ChunksJoin, ChunksShape, ChunksCons |
| Goconf.Apply | config.go:84-111 | no contract of its own: one round of the loop body for a line's kind; see IgnoredLine, HeaderLine, AssignLine, MalformedLine, and HandleLine, which is proved equal to it |
| Goconf.Kinds | config.go:77-78 | no contract of its own: the kind of each trimmed piece |
| Goconf.Run | config.go:76-117 | no contract of its own: the loop of `read` over the lines still to come; see ReadOverlay, ReadOutcomeOfText, and Read, which is proved equal to it |
| Goconf.ReadText | config.go:73-119 | no contract of its own: `read` on a whole text from `default`; see ReadEntry, ReadNeverRemoves, ReadKeepsUnsetEntries |
| Goconf.Put | config.go:121-127 | after the write the entry reads back; every other (section, key) pair is unchanged; the section is added to the sections |
| Goconf.LoadOne | config.go:64-71 | a path that does not open is the open failure and leaves the store alone; success means the whole text was read; a parse failure carries the store as the read left it at the failing line |
| Goconf.LoadFiles | config.go:56-61 | an error names one of the paths; without an error, every path opened |
| Goconf.Config.constructor | config.go:37-44 | a new object holds the given file list, an empty `keys` and an empty store |
| Goconf.Config.SetValue | config.go:121-127 | the store becomes Put of the old store; the entry then reads back through GetValue; the other fields are unchanged |
| Goconf.Config.GetValue | config.go:130-140 | the empty section stands for `default`; a present entry is returned with no error; a missing section or key gives the empty value and "Key not found." |
| Goconf.Config.HandleLine | config.go:84-111 | one round of the loop body does to the store and the section exactly what Apply does for the line's kind, or reports the failure |
| Goconf.Config.Read | config.go:73-119 | the line loop leaves the store and outcome that ReadText specifies, starting in `default`, and changes no other field |
| Goconf.Config.LoadFile | config.go:64-71 | loading one file into the object agrees with LoadOne |
| Goconf.LoadConfig | config.go:48-62 | the object gets the file list primary then extras and an empty `keys`; its store and error agree with LoadFiles over that list |
| Properties.Overwrite | config.go:126 | writing the same entry twice keeps only the second value |
| Properties.ChunksJoin | config.go:77 | the pieces `ReadString('\n')` returns put together are the text |
| Properties.ChunksShape | config.go:77 | every piece but the last ends with its only `\n`; the last holds none |
| Properties.ChunksCons | config.go:77 | a line without `\n`, then `\n`, is the first piece |
| Properties.IgnoredLine | config.go:80-93 | blank lines, every line led by `;` or `#` (whatever it ends with), and lines led by `[` not ending in `]` change neither store nor section |
| Properties.HeaderLine | config.go:86-91 | a bracketed line sets the section to the text between the brackets and stores nothing |
| Properties.AssignLine | config.go:94-110 | an assignment stores its entry in the current section and keeps the section |
| Properties.MalformedLine | config.go:96-107 | a malformed line ends the read with the store as it was before that line |
| Properties.ReadOverlay | config.go:76-117 | reading into a store writes over it exactly the entries that reading into an empty store produces, with the same outcome |
| Properties.ReadNeverRemoves | config.go:121-127 | reading never removes an entry: one present before is present afterwards |
| Properties.ReadKeepsUnsetEntries | config.go:121-127 | an entry the file does not set keeps its value |
| Properties.ReadOutcomeOfText | config.go:76-117 | whether a read completes depends on the text alone |
| Properties.SameTrimmedLines | config.go:78 | pieces that trim alike read alike |
| Properties.CrlfEnding | config.go:78 | a line ending in `\r\n` trims like the same line ending in `\n` |
| Properties.HeaderTrimmed | config.go:78 | a line `[section]` with its `\n` trims to `[section]` |
| Properties.HeaderClassified | config.go:86-91 | `[section]` is the header of `section`, `[]` included |
| Properties.EntryChunk | config.go:78-110 | a formatted entry line with its `\n` is the assignment of its key and value |
| Properties.EmptyLast | config.go:114-116 | the empty last piece of a text that ends with `\n` changes nothing and ends the read |
| Properties.EntryChunks | config.go:77 | a one-line file splits into the line and an empty last piece |
| Properties.EntryLine | config.go:94-110 | an entry line, whatever follows it, stores its entry in the current section and keeps the section |
| Properties.ReadEntry | config.go:75-110 | an entry on the first line of a file, whatever follows it, is stored in `default` and `default` stays in force |
| Properties.ReadSectionEntry | config.go:86-110 | a header line then an entry line, in whatever section and before whatever text: the entry is stored in the header's section, which stays in force |
| Properties.EmptyHeaderHidden | config.go:86-91 | after `[]` an entry goes to the section named by the empty string, and `default` is not touched |
| Properties.EmptySectionIsDefault | config.go:131-133 | GetValue with the empty section equals GetValue with `default` |
| Properties.LoadFilesAppend | config.go:56-61 | loading `p + q` is loading `p`, then `q` into the result unless `p` failed |
| Properties.StopsAtFirstFailure | config.go:57-58 | the first failing file ends loading, and the files after it are never read |
| Properties.StopsAtMissingFile | config.go:57-58 | a file that does not open ends loading with only the earlier files' entries |
| Properties.LoadOneSucceeds | config.go:64-71 | loading one file succeeds exactly when it opens and reads to the end |
| Properties.LoadSucceeds | config.go:56-61 | loading succeeds exactly when every file opens and reads to the end on its own |
| Properties.LaterFileWins | config.go:56-61 | the file loaded last decides an entry it sets |
| Properties.EachFileStartsInDefault | config.go:56-75 | once the earlier files have loaded, the next file is LoadOne on their store, and a file that opens is run from `default`, whatever section the previous file ended in |

## Left out

- `os.Open` and `defer f.Close()` (config.go:64-71): file-system I/O. The map `fs`
  stands in for them. An absent path is an open failure; the error value itself is
  not modelled.
- `bufio.Reader` (config.go:74, 77): modelled by the pure `Chunks`. A read error
  other than `io.EOF` is not modelled. With such an error the Go loop would go on
  calling the reader, and what follows depends on the reader, not on the parsing.
- `LineBreak`, `init` and the `runtime.GOOS` test (config.go:14, 22-26): a
  platform-dependent global that parsing never uses.
- The `ParseError` type (config.go:12) and `ERR_FILE_NOT_FOUND` (config.go:19):
  declared but never used.
- `keys` (config.go:33, 40): allocated and never written. The model keeps the field,
  and the constructor, `Read` and `LoadConfig` state that it stays empty.
- The `error` results of `read` and `setValue`, which are always nil. They are not
  modelled. `GetValue`'s error is an optional message equal to "Key not found.".
- `strings.TrimSpace`: full Unicode white space is not modelled. The model trims the
  ASCII set: space, `\t`, `\n`, `\r`, `\v`, `\f`.
- The two panics: modelled as the outcomes `Malformed`, `Panicked` and `ParsePanic`
  instead of a crash of the process, with the store as it was at that line.
- Go's byte strings: the model works on characters. See the note on ASCII
  above.
