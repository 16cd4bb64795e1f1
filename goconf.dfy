/** The configuration store of config.go: the file loop, the per-file line loop, and
    lookups. Reading a file is specified by the pure functions Run and ReadText;
    the `Config` class runs the same steps imperatively and is proved to agree. */
module Goconf {
  import opened GoStrings
  import opened IniLine

  datatype Option<T> = None | Some(value: T)

  /** The section in force before the first header of a file, and the one
      `GetValue` reads when it is given the empty section name. */
  const DefaultSection: string := "default"

  /** The message of the error `GetValue` returns for a missing entry. */
  const ErrKeyNotFound: string := "Key not found."

  /** section => key => value */
  type Store = map<string, map<string, string>>

  /** The entry at `section`, `key`; a missing section reads like an empty one. */
  function Get(data: Store, section: string, key: string): Option<string> {
    if section in data && key in data[section] then Some(data[section][key]) else None
  }

  /** `setValue` on a store: the inner map is created when the section is new, and the
      entry is set whether or not it was there before. */
  function Put(data: Store, section: string, key: string, value: string): (r: Store)
    ensures r.Keys == data.Keys + {section}
    ensures Get(r, section, key) == Some(value)
    ensures forall s, k :: (s != section || k != key) ==> Get(r, s, k) == Get(data, s, k)
  {
    var inner := if section in data then data[section] else map[];
    data[section := inner[key := value]]
  }

  // ---------------------------------------------------------------------------
  // Splitting a file into the pieces `bufio.Reader.ReadString('\n')` returns

  /** The successive results of `ReadString('\n')` on `text`: every piece but the last
      ends with its one `\n`; the last runs to the end of the text (it is empty when the
      text ends with `\n`, and it is the piece that comes with `io.EOF`). */
  function Chunks(text: string): (cs: seq<string>)
    ensures |cs| >= 1
    decreases |text|
  {
    var n := IndexOf(text, '\n');
    if n == |text| then [text] else [text[..n + 1]] + Chunks(text[n + 1..])
  }

  /** The pieces put back together. */
  function Concat(cs: seq<string>): string
    decreases |cs|
  {
    if cs == [] then [] else cs[0] + Concat(cs[1..])
  }

  // ---------------------------------------------------------------------------
  // Reading one file

  /** How a read ends: it reaches the end of the text, or it stops at a line on which
      config.go indexes out of range. */
  datatype ReadOutcome = Completed | Panicked(reason: Malformation)

  datatype ReadResult = ReadResult(data: Store, outcome: ReadOutcome)

  /** What one round of the loop leaves: the store and section to go on with, or the
      store at the line on which the loop stops. */
  datatype StepResult = Continue(data: Store, section: string) | Stop(data: Store, reason: Malformation)

  /** What a line of kind `kind` does: blank lines and comments change nothing, a
      header changes the section, an assignment is stored in the current section, and
      a malformed line stops the loop. */
  function Apply(data: Store, section: string, kind: LineKind): StepResult {
    match kind
    case Blank => Continue(data, section)
    case Comment => Continue(data, section)
    case Header(name) => Continue(data, name)
    case Assign(key, value) => Continue(Put(data, section, key, value), section)
    case Malformed(reason) => Stop(data, reason)
  }

  /** The kind of each piece once trimmed, as the loop of `read` sees it. */
  function Kinds(chunks: seq<string>): (kinds: seq<LineKind>) {
    seq(|chunks|, i requires 0 <= i < |chunks| => ClassifyLine(TrimSpace(chunks[i])))
  }

  /** The loop of `read` over the lines still to come, in `section`. */
  function Run(data: Store, section: string, kinds: seq<LineKind>): ReadResult
    decreases |kinds|
  {
    if kinds == [] then ReadResult(data, Completed)
    else
      match Apply(data, section, kinds[0])
      case Continue(next, nextSection) => Run(next, nextSection, kinds[1..])
      case Stop(last, reason) => ReadResult(last, Panicked(reason))
  }

  /** `read` on a whole file: it starts in the default section. */
  function ReadText(data: Store, text: string): ReadResult {
    Run(data, DefaultSection, Kinds(Chunks(text)))
  }

  // ---------------------------------------------------------------------------
  // Loading files

  /** Why loading stops: `os.Open` fails, or reading panics. */
  datatype LoadError = OpenFailed(path: string) | ParsePanic(path: string, reason: Malformation)

  datatype Loaded = Loaded(data: Store, err: Option<LoadError>)

  /** `loadFile`: `fs` holds the contents of the paths that open; any other path fails
      to open and leaves the store as it is. */
  function LoadOne(data: Store, path: string, fs: map<string, string>): (r: Loaded)
    ensures path !in fs <==> r.err == Some(OpenFailed(path))
    ensures path !in fs ==> r.data == data
    ensures r.err.None? ==> path in fs && ReadText(data, fs[path]) == ReadResult(r.data, Completed)
    ensures r.err.Some? && r.err.value.ParsePanic? ==>
              path in fs && ReadText(data, fs[path]) == ReadResult(r.data, Panicked(r.err.value.reason))
  {
    if path !in fs then Loaded(data, Some(OpenFailed(path)))
    else
      var read := ReadText(data, fs[path]);
      match read.outcome
      case Completed => Loaded(read.data, None)
      case Panicked(reason) => Loaded(read.data, Some(ParsePanic(path, reason)))
  }

  /** The loop of `LoadConfig`: the files in order, stopping at the first error. */
  function LoadFiles(data: Store, paths: seq<string>, fs: map<string, string>): (r: Loaded)
    ensures r.err.Some? ==> r.err.value.path in paths
    ensures r.err == None ==> forall i :: 0 <= i < |paths| ==> paths[i] in fs
    decreases |paths|
  {
    if paths == [] then Loaded(data, None)
    else
      var first := LoadOne(data, paths[0], fs);
      if first.err.Some? then first else LoadFiles(first.data, paths[1..], fs)
  }

  // ---------------------------------------------------------------------------
  // The object

  /** The result pair of `GetValue`. */
  datatype Lookup = Lookup(value: string, err: Option<string>)

  class Config {
    var fileName: seq<string>
    /** Allocated but never written: it stays empty. */
    var keys: map<string, seq<string>>
    var data: Store

    /** `newConfig`. */
    constructor (files: seq<string>)
      ensures fileName == files && keys == map[] && data == map[]
    {
      fileName := files;
      keys := map[];
      data := map[];
    }

    /** `setValue`: afterwards the entry reads back, and nothing else changed. */
    method SetValue(section: string, key: string, value: string)
      modifies this
      ensures data == Put(old(data), section, key, value)
      ensures section != "" ==> GetValue(section, key) == Lookup(value, None)
      ensures fileName == old(fileName) && keys == old(keys)
    {
      if section !in data {
        data := data[section := map[]];
      }
      data := data[section := data[section][key := value]];
    }

    /** `GetValue`: the empty section name stands for the default section; a missing
        section or key gives the empty value and the key-not-found error. */
    function GetValue(section: string, key: string): (r: Lookup)
      reads this
      ensures var s := if section == "" then DefaultSection else section;
              (r.err == None <==> Get(data, s, key).Some?) &&
              (r.err == None ==> Get(data, s, key) == Some(r.value)) &&
              (r.err != None ==> r == Lookup("", Some(ErrKeyNotFound)))
    {
      var s := if section == "" then DefaultSection else section;
      if s in data && key in data[s] then Lookup(data[s][key], None)
      else Lookup("", Some(ErrKeyNotFound))
    }

    /** The body of the loop of `read` for one non-empty trimmed line. */
    method HandleLine(section: string, line: string) returns (next: string, stop: Option<Malformation>)
      requires line != []
      modifies this
      ensures Apply(old(data), section, ClassifyLine(line)) ==
              if stop.Some? then Stop(data, stop.value) else Continue(data, next)
      ensures fileName == old(fileName) && keys == old(keys)
    {
      next := section;
      stop := None;
      if line[0] == '[' && line[|line| - 1] == ']' {
        next := line[1..|line| - 1];
      }
      if line[0] == '[' || line[0] == ';' || line[0] == '#' {
        return;
      }
      assert ClassifyLine(line) == ParseAssignment(line);
      var parts := Split(line, '=');
      if |parts| < 2 {
        stop := Some(MissingSeparator);
        return;
      }
      var key := TrimSpace(parts[0]);
      var trimmed := TrimSpace(parts[1]);
      var stripped := StripInlineComments(trimmed);
      if |stripped| == 0 {
        stop := Some(EmptyValue);
        return;
      }
      var value := stripped;
      if value[0] == '"' && value[|value| - 1] == '"' {
        value := TrimQuotes(value);
      }
      assert value == Unquote(stripped);
      assert ParseAssignment(line) == Assign(key, value);
      SetValue(section, key, value);
    }

    /** `read`: one `ReadString('\n')` per round, handled as config.go does. */
    method Read(text: string) returns (outcome: ReadOutcome)
      modifies this
      ensures ReadText(old(data), text) == ReadResult(data, outcome)
      ensures fileName == old(fileName) && keys == old(keys)
    {
      var section := DefaultSection;
      var pos := 0;
      outcome := Completed;
      ghost var todo := Chunks(text);
      assert text[0..] == text;
      while pos <= |text|
        invariant pos <= |text| + 1
        invariant fileName == old(fileName) && keys == old(keys) && outcome == Completed
        invariant todo == if pos <= |text| then Chunks(text[pos..]) else []
        invariant ReadText(old(data), text) == Run(data, section, Kinds(todo))
        decreases |text| + 1 - pos
      {
        var rest := text[pos..];
        var n := IndexOf(rest, '\n');
        var eof := n == |rest|;
        var next := if eof then |text| + 1 else pos + n + 1;
        var chunk := if eof then rest else rest[..n + 1];
        ChunksStep(text, pos, next, chunk, todo);
        ghost var later := todo[1..];
        var line := TrimSpace(chunk);
        KindsCons(todo);
        RunCons(data, section, Kinds(todo));
        if |line| == 0 && !eof {
          pos := next;
          todo := later;
          continue;
        }
        if |line| != 0 {
          var stop;
          section, stop := HandleLine(section, line);
          if stop.Some? {
            outcome := Panicked(stop.value);
            return;
          }
        }
        pos := next;
        todo := later;
      }
      assert todo == [];
    }

    /** `loadFile`. */
    method LoadFile(path: string, fs: map<string, string>) returns (err: Option<LoadError>)
      modifies this
      ensures LoadOne(old(data), path, fs) == Loaded(data, err)
      ensures fileName == old(fileName) && keys == old(keys)
    {
      if path !in fs {
        err := Some(OpenFailed(path));
        return;
      }
      var outcome := Read(fs[path]);
      match outcome
      case Completed => err := None;
      case Panicked(reason) => err := Some(ParsePanic(path, reason));
    }
  }

  /** `LoadConfig`: the primary file, then the extras, each loaded into one fresh
      object; the first error ends the loop and comes back with the store as it is. */
  method LoadConfig(file: string, files: seq<string>, fs: map<string, string>)
    returns (conf: Config, err: Option<LoadError>)
    ensures fresh(conf)
    ensures conf.fileName == [file] + files && conf.keys == map[]
    ensures LoadFiles(map[], [file] + files, fs) == Loaded(conf.data, err)
  {
    var fileList := [file];
    if |files| > 0 {
      fileList := fileList + files;
    }
    conf := new Config(fileList);
    var i := 0;
    while i < |fileList|
      invariant i <= |fileList|
      invariant conf.fileName == fileList && conf.keys == map[]
      invariant LoadFiles(map[], fileList, fs) == LoadFiles(conf.data, fileList[i..], fs)
    {
      ghost var before := conf.data;
      assert fileList[i..][0] == fileList[i] && fileList[i..][1..] == fileList[i + 1..];
      err := conf.LoadFile(fileList[i], fs);
      LoadFilesStep(before, fileList[i..], fs, conf.data, err);
      if err.Some? {
        return;
      }
      i := i + 1;
    }
    err := None;
  }

  /** One round of the read loop: the piece at `pos`, and the pieces from the next
      position on (none once the last piece has been taken). */
  lemma ChunksStep(text: string, pos: nat, next: nat, chunk: string, todo: seq<string>)
    requires pos <= |text| && todo == Chunks(text[pos..])
    requires var rest := text[pos..];
             var n := IndexOf(rest, '\n');
             next == (if n == |rest| then |text| + 1 else pos + n + 1) &&
             chunk == (if n == |rest| then rest else rest[..n + 1])
    ensures todo[0] == chunk
    ensures todo[1..] == if next <= |text| then Chunks(text[next..]) else []
  {
    var rest := text[pos..];
    var n := IndexOf(rest, '\n');
    if n == |rest| {
      assert todo == [rest];
    } else {
      assert rest[n + 1..] == text[pos + n + 1..];
      assert todo == [rest[..n + 1]] + Chunks(text[next..]);
    }
  }

  /** The first kind and the rest. */
  lemma KindsCons(chunks: seq<string>)
    requires chunks != []
    ensures Kinds(chunks)[0] == ClassifyLine(TrimSpace(chunks[0]))
    ensures Kinds(chunks)[1..] == Kinds(chunks[1..])
  {
  }

  /** One round of Run. */
  lemma RunCons(data: Store, section: string, kinds: seq<LineKind>)
    requires kinds != []
    ensures Run(data, section, kinds) ==
            match Apply(data, section, kinds[0])
            case Continue(next, nextSection) => Run(next, nextSection, kinds[1..])
            case Stop(last, reason) => ReadResult(last, Panicked(reason))
  {
  }

  /** One round of LoadFiles, given what loading the first file gave. */
  lemma LoadFilesStep(data: Store, paths: seq<string>, fs: map<string, string>,
                      after: Store, err: Option<LoadError>)
    requires paths != [] && LoadOne(data, paths[0], fs) == Loaded(after, err)
    ensures err.Some? ==> LoadFiles(data, paths, fs) == Loaded(after, err)
    ensures err.None? ==> LoadFiles(data, paths, fs) == LoadFiles(after, paths[1..], fs)
  {
    LoadFilesCons(data, paths, fs);
  }

  /** One round of LoadFiles. */
  lemma LoadFilesCons(data: Store, paths: seq<string>, fs: map<string, string>)
    requires paths != []
    ensures LoadFiles(data, paths, fs) ==
            var first := LoadOne(data, paths[0], fs);
            if first.err.Some? then first else LoadFiles(first.data, paths[1..], fs)
  {
  }
}
