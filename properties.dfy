/** What reading and loading configuration files guarantee, stated over the
    specification functions of module Goconf. */
module Properties {
  import opened GoStrings
  import opened IniLine
  import opened Goconf

  // ---------------------------------------------------------------------------
  // The store

  /** Setting the same entry twice keeps only the second value. */
  lemma Overwrite(data: Store, section: string, key: string, v1: string, v2: string)
    ensures Put(Put(data, section, key, v1), section, key, v2) == Put(data, section, key, v2)
  {
    var once := Put(data, section, key, v1);
    assert once[section][key := v2] == Put(data, section, key, v2)[section];
  }

  /** `r` is `d` with the entries of `w` written over it. */
  ghost predicate Overlays(r: Store, d: Store, w: Store) {
    r.Keys == d.Keys + w.Keys &&
    forall s, k :: Get(r, s, k) == if Get(w, s, k).Some? then Get(w, s, k) else Get(d, s, k)
  }

  // ---------------------------------------------------------------------------
  // Splitting into lines

  /** `ReadString('\n')` loses nothing: the pieces put together are the text. */
  lemma {:induction false} ChunksJoin(text: string)
    ensures Concat(Chunks(text)) == text
    decreases |text|
  {
    var n := IndexOf(text, '\n');
    if n < |text| {
      ChunksJoin(text[n + 1..]);
      var cs := Chunks(text);
      assert cs[1..] == Chunks(text[n + 1..]);
      assert text == text[..n + 1] + text[n + 1..];
    } else {
      assert Chunks(text)[1..] == [];
      assert text + [] == text;
    }
  }

  /** Every piece but the last ends with a `\n` and holds no other; the last holds none. */
  lemma {:induction false} ChunksShape(text: string)
    ensures var cs := Chunks(text);
            '\n' !in cs[|cs| - 1] &&
            forall i :: 0 <= i < |cs| - 1 ==>
              |cs[i]| >= 1 && cs[i][|cs[i]| - 1] == '\n' && '\n' !in cs[i][..|cs[i]| - 1]
    decreases |text|
  {
    var n := IndexOf(text, '\n');
    IndexOfSpec(text, '\n');
    if n < |text| {
      ChunksShape(text[n + 1..]);
      var cs := Chunks(text);
      var tail := Chunks(text[n + 1..]);
      assert cs == [text[..n + 1]] + tail;
      assert text[..n + 1][..n] == text[..n];
      forall i | 0 <= i < |cs| - 1
        ensures |cs[i]| >= 1 && cs[i][|cs[i]| - 1] == '\n' && '\n' !in cs[i][..|cs[i]| - 1]
      {
        if i > 0 {
          assert cs[i] == tail[i - 1];
        }
      }
    } else {
      assert '\n' !in text;
    }
  }

  /** A line without `\n`, then `\n`, is the first piece. */
  lemma ChunksCons(a: string, b: string)
    requires '\n' !in a
    ensures Chunks(a + "\n" + b) == [a + "\n"] + Chunks(b)
  {
    var text := a + "\n" + b;
    IndexOfCons(a, '\n', b);
    assert text[..|a| + 1] == a + "\n";
    assert text[|a| + 1..] == b;
  }

  // ---------------------------------------------------------------------------
  // What a line does to the store and the section

  /** Blank lines, lines led by `;` or `#`, and lines led by `[` that do not end with
      `]` change neither the store nor the section. */
  lemma IgnoredLine(data: Store, section: string, chunk: string, rest: seq<string>)
    requires var line := TrimSpace(chunk);
             line == [] || line[0] == ';' || line[0] == '#' ||
             (line[0] == '[' && line[|line| - 1] != ']')
    ensures Run(data, section, Kinds([chunk] + rest)) == Run(data, section, Kinds(rest))
  {
    KindsCons([chunk] + rest);
    assert ([chunk] + rest)[1..] == rest;
    var line := TrimSpace(chunk);
    assert ClassifyLine(line) == Blank || ClassifyLine(line) == Comment;
  }

  /** A header line sets the section to the text between its brackets and stores
      nothing. */
  lemma HeaderLine(data: Store, section: string, chunk: string, rest: seq<string>)
    requires var line := TrimSpace(chunk);
             |line| >= 2 && line[0] == '[' && line[|line| - 1] == ']'
    ensures var line := TrimSpace(chunk);
            Run(data, section, Kinds([chunk] + rest)) == Run(data, line[1..|line| - 1], Kinds(rest))
  {
    KindsCons([chunk] + rest);
    assert ([chunk] + rest)[1..] == rest;
  }

  /** An assignment line stores its entry in the current section and keeps the section. */
  lemma AssignLine(data: Store, section: string, chunk: string, rest: seq<string>)
    requires ClassifyLine(TrimSpace(chunk)).Assign?
    ensures var kind := ClassifyLine(TrimSpace(chunk));
            Run(data, section, Kinds([chunk] + rest)) ==
            Run(Put(data, section, kind.key, kind.value), section, Kinds(rest))
  {
    KindsCons([chunk] + rest);
    assert ([chunk] + rest)[1..] == rest;
  }

  /** A malformed line ends the read with the store as it was before that line. */
  lemma MalformedLine(data: Store, section: string, chunk: string, rest: seq<string>)
    requires ClassifyLine(TrimSpace(chunk)).Malformed?
    ensures Run(data, section, Kinds([chunk] + rest)) ==
            ReadResult(data, Panicked(ClassifyLine(TrimSpace(chunk)).reason))
  {
    KindsCons([chunk] + rest);
  }

  // ---------------------------------------------------------------------------
  // Reading a file

  /** Overlaying is compatible with one more write underneath. */
  lemma OverlayPut(r: Store, d: Store, w: Store, w0: Store, section: string, key: string, value: string)
    requires Overlays(r, Put(d, section, key, value), w0)
    requires Overlays(w, Put(map[], section, key, value), w0)
    ensures Overlays(r, d, w)
  {
    forall s, k ensures Get(r, s, k) == if Get(w, s, k).Some? then Get(w, s, k) else Get(d, s, k) {
      assert Get(Put(map[], section, key, value), s, k) ==
             if s == section && k == key then Some(value) else None;
    }
  }

  /** Reading into a store writes the entries that reading into an empty store
      produces, over the store's own: the outcome and the entries written do not depend
      on what was there before. */
  lemma {:induction false} ReadOverlay(data: Store, section: string, kinds: seq<LineKind>)
    ensures var r := Run(data, section, kinds);
            var w := Run(map[], section, kinds);
            r.outcome == w.outcome && Overlays(r.data, data, w.data)
    decreases |kinds|
  {
    if kinds != [] {
      var rest := kinds[1..];
      match kinds[0]
      case Blank =>
        ReadOverlay(data, section, rest);
      case Comment =>
        ReadOverlay(data, section, rest);
      case Header(name) =>
        ReadOverlay(data, name, rest);
      case Assign(key, value) =>
        var d1 := Put(data, section, key, value);
        var e1 := Put(map[], section, key, value);
        var r := Run(d1, section, rest);
        var w := Run(e1, section, rest);
        assert Run(data, section, kinds) == r && Run(map[], section, kinds) == w;
        assert r.outcome == w.outcome && Overlays(r.data, data, w.data) by {
          ReadOverlay(d1, section, rest);
          ReadOverlay(e1, section, rest);
          OverlayPut(r.data, data, w.data, Run(map[], section, rest).data, section, key, value);
        }
      case Malformed(reason) =>
    }
  }

  /** Reading never removes an entry: one that was there is there afterwards. */
  lemma ReadNeverRemoves(data: Store, text: string, section: string, key: string)
    ensures Get(data, section, key).Some? ==> Get(ReadText(data, text).data, section, key).Some?
  {
    ReadOverlay(data, DefaultSection, Kinds(Chunks(text)));
  }

  /** An entry the file does not set keeps its value. */
  lemma ReadKeepsUnsetEntries(data: Store, text: string, section: string, key: string)
    requires Get(ReadText(map[], text).data, section, key) == None
    ensures Get(ReadText(data, text).data, section, key) == Get(data, section, key)
  {
    ReadOverlay(data, DefaultSection, Kinds(Chunks(text)));
  }

  /** Whether a read completes depends on the text alone. */
  lemma ReadOutcomeOfText(data: Store, text: string)
    ensures ReadText(data, text).outcome == ReadText(map[], text).outcome
  {
    ReadOverlay(data, DefaultSection, Kinds(Chunks(text)));
  }

  /** Pieces that trim alike read alike. */
  lemma SameTrimmedLines(data: Store, section: string, cs: seq<string>, ds: seq<string>)
    requires |cs| == |ds|
    requires forall i :: 0 <= i < |cs| ==> TrimSpace(cs[i]) == TrimSpace(ds[i])
    ensures Run(data, section, Kinds(cs)) == Run(data, section, Kinds(ds))
  {
    assert Kinds(cs) == Kinds(ds);
  }

  /** A line ended by `\r\n` trims like the same line ended by `\n`, so files with
      either line ending read alike line by line. */
  lemma CrlfEnding(line: string)
    ensures TrimSpace(line + "\r\n") == TrimSpace(line + "\n")
  {
    TrimSpaceTrailing(line, "\r\n");
    TrimSpaceTrailing(line, "\n");
  }

  /** A header line `[section]`, as one would write it, needs no trimming. */
  lemma HeaderTrimmed(section: string)
    ensures TrimSpace("[" + section + "]" + "\n") == "[" + section + "]"
  {
    var line := "[" + section + "]";
    TrimSpaceTrailing(line, "\n");
    TrimFuncId(line, IsSpace);
  }

  /** `[section]` names `section`, whatever it holds, `[]` included. */
  lemma HeaderClassified(section: string)
    ensures ClassifyLine("[" + section + "]") == Header(section)
  {
    var line := "[" + section + "]";
    assert line[1..|line| - 1] == section;
  }

  /** A formatted entry line, ended by `\n`. */
  lemma EntryChunk(key: string, value: string)
    requires PlainKey(key) && PlainValue(value)
    ensures ClassifyLine(TrimSpace(FormatEntry(key, value) + "\n")) == Assign(key, value)
  {
    var line := FormatEntry(key, value);
    assert TrimSpace(line + "\n") == line by {
      TrimSpaceTrailing(line, "\n");
      FormattedTrimmed(key, value);
    }
    assert ClassifyLine(line) == Assign(key, value) by {
      ParseFormatted(key, value);
    }
  }

  /** The last, empty piece of a text that ends with `\n` changes nothing. */
  lemma EmptyLast(data: Store, section: string)
    ensures Run(data, section, Kinds([""])) == ReadResult(data, Completed)
  {
    assert TrimSpace("") == "";
    KindsCons([""]);
    assert Kinds([""])[1..] == [];
  }

  /** The pieces of a one-entry file. */
  lemma EntryChunks(entry: string)
    requires '\n' !in entry
    ensures Chunks(entry + "\n") == [entry + "\n"] + [""]
  {
    assert entry + "\n" == entry + "\n" + "";
    ChunksCons(entry, "");
    assert Chunks("") == [""];
  }

  /** An entry line stores its entry in the current section, whatever follows it. */
  lemma EntryLine(data: Store, section: string, key: string, value: string, rest: string)
    requires PlainKey(key) && PlainValue(value) && '\n' !in key && '\n' !in value
    ensures Run(data, section, Kinds(Chunks(FormatEntry(key, value) + "\n" + rest))) ==
            Run(Put(data, section, key, value), section, Kinds(Chunks(rest)))
  {
    var entry := FormatEntry(key, value);
    assert Chunks(entry + "\n" + rest) == [entry + "\n"] + Chunks(rest) by {
      assert '\n' !in entry;
      ChunksCons(entry, rest);
    }
    EntryChunk(key, value);
    AssignLine(data, section, entry + "\n", Chunks(rest));
  }

  /** An entry before any header goes to the default section, whatever follows it. */
  lemma ReadEntry(data: Store, key: string, value: string, rest: string)
    requires PlainKey(key) && PlainValue(value) && '\n' !in key && '\n' !in value
    ensures ReadText(data, FormatEntry(key, value) + "\n" + rest) ==
            Run(Put(data, DefaultSection, key, value), DefaultSection, Kinds(Chunks(rest)))
  {
    EntryLine(data, DefaultSection, key, value, rest);
  }

  /** A header line followed by an entry line: whatever section was in force before,
      whatever follows, the entry is stored in the header's section and that section
      stays in force. */
  lemma ReadSectionEntry(data: Store, current: string, section: string, key: string, value: string,
                         rest: string)
    requires '\n' !in section
    requires PlainKey(key) && PlainValue(value) && '\n' !in key && '\n' !in value
    ensures Run(data, current, Kinds(Chunks("[" + section + "]" + "\n" + FormatEntry(key, value) + "\n" + rest))) ==
            Run(Put(data, section, key, value), section, Kinds(Chunks(rest)))
  {
    var header := "[" + section + "]";
    var later := FormatEntry(key, value) + "\n" + rest;
    assert Chunks(header + "\n" + FormatEntry(key, value) + "\n" + rest) ==
           [header + "\n"] + Chunks(later) by {
      assert header + "\n" + FormatEntry(key, value) + "\n" + rest == header + "\n" + later;
      assert '\n' !in header;
      ChunksCons(header, later);
    }
    assert Run(data, current, Kinds([header + "\n"] + Chunks(later))) ==
           Run(data, section, Kinds(Chunks(later))) by {
      HeaderTrimmed(section);
      HeaderClassified(section);
      HeaderLine(data, current, header + "\n", Chunks(later));
      assert header[1..|header| - 1] == section;
    }
    EntryLine(data, section, key, value, rest);
  }

  /** `[]` selects the section named by the empty string, which `GetValue` cannot
      reach: looking up the empty section reads `default` instead. */
  lemma EmptyHeaderHidden(data: Store, key: string, value: string)
    requires PlainKey(key) && PlainValue(value) && '\n' !in key && '\n' !in value
    ensures var r := ReadText(data, "[]" + "\n" + FormatEntry(key, value) + "\n");
            Get(r.data, "", key) == Some(value) &&
            Get(r.data, DefaultSection, key) == Get(data, DefaultSection, key)
  {
    var entry := FormatEntry(key, value);
    var stored := Put(data, "", key, value);
    assert "[]" + "\n" + entry + "\n" == "[" + "" + "]" + "\n" + entry + "\n" + "";
    ReadSectionEntry(data, DefaultSection, "", key, value, "");
    assert Chunks("") == [""];
    EmptyLast(stored, "");
  }

  // ---------------------------------------------------------------------------
  // Looking up

  /** The empty section name and `default` look up the same entry. */
  lemma EmptySectionIsDefault(conf: Config, key: string)
    ensures conf.GetValue("", key) == conf.GetValue(DefaultSection, key)
  {
  }

  // ---------------------------------------------------------------------------
  // Loading files

  /** Loading `p + q` is loading `p`, then, unless that failed, `q` into the result. */
  lemma {:induction false} LoadFilesAppend(data: Store, p: seq<string>, q: seq<string>, fs: map<string, string>)
    ensures LoadFiles(data, p + q, fs) ==
            var first := LoadFiles(data, p, fs);
            if first.err.Some? then first else LoadFiles(first.data, q, fs)
    decreases |p|
  {
    if p == [] {
      assert p + q == q;
    } else {
      assert (p + q)[0] == p[0] && (p + q)[1..] == p[1..] + q;
      var one := LoadOne(data, p[0], fs);
      if one.err.None? {
        LoadFilesAppend(one.data, p[1..], q, fs);
      }
    }
  }

  /** The first file that fails ends loading: what is returned is that file's load on
      top of the earlier files, and the later files are not looked at. */
  lemma StopsAtFirstFailure(data: Store, p: seq<string>, path: string, q: seq<string>, fs: map<string, string>)
    requires LoadFiles(data, p, fs).err == None
    requires LoadOne(LoadFiles(data, p, fs).data, path, fs).err.Some?
    ensures LoadFiles(data, p + [path] + q, fs) == LoadOne(LoadFiles(data, p, fs).data, path, fs)
  {
    LoadFilesAppend(data, p, [path] + q, fs);
    assert p + [path] + q == p + ([path] + q);
    assert ([path] + q)[0] == path && ([path] + q)[1..] == q;
  }

  /** A file that does not open ends loading with the earlier files' entries only. */
  lemma StopsAtMissingFile(data: Store, p: seq<string>, path: string, q: seq<string>, fs: map<string, string>)
    requires LoadFiles(data, p, fs).err == None
    requires path !in fs
    ensures LoadFiles(data, p + [path] + q, fs) == Loaded(LoadFiles(data, p, fs).data, Some(OpenFailed(path)))
  {
    StopsAtFirstFailure(data, p, path, q, fs);
  }

  /** `path` opens, and its text reads to the end. */
  ghost predicate Loads(path: string, fs: map<string, string>) {
    path in fs && ReadText(map[], fs[path]).outcome == Completed
  }

  /** Loading one file succeeds exactly when it opens and reads to the end. */
  lemma LoadOneSucceeds(data: Store, path: string, fs: map<string, string>)
    ensures LoadOne(data, path, fs).err == None <==> Loads(path, fs)
  {
    if path in fs {
      ReadOutcomeOfText(data, fs[path]);
    }
  }

  /** Loading succeeds exactly when every file opens and reads to the end on its own. */
  lemma {:induction false} LoadSucceeds(data: Store, paths: seq<string>, fs: map<string, string>)
    ensures LoadFiles(data, paths, fs).err == None <==>
            forall i :: 0 <= i < |paths| ==> Loads(paths[i], fs)
    decreases |paths|
  {
    if paths != [] {
      var one := LoadOne(data, paths[0], fs);
      LoadFilesCons(data, paths, fs);
      LoadOneSucceeds(data, paths[0], fs);
      LoadSucceeds(one.data, paths[1..], fs);
      assert (forall i :: 0 <= i < |paths| ==> Loads(paths[i], fs)) <==>
             Loads(paths[0], fs) && (forall i :: 0 <= i < |paths[1..]| ==> Loads(paths[1..][i], fs)) by {
        if forall i :: 0 <= i < |paths[1..]| ==> Loads(paths[1..][i], fs) {
          forall i | 1 <= i < |paths| ensures Loads(paths[i], fs) {
            assert paths[i] == paths[1..][i - 1];
          }
        }
      }
    }
  }

  /** The file loaded last decides an entry it sets, whatever the earlier files said. */
  lemma LaterFileWins(data: Store, p: seq<string>, path: string, fs: map<string, string>,
                      section: string, key: string, value: string)
    requires LoadFiles(data, p + [path], fs).err == None
    requires path in fs && Get(ReadText(map[], fs[path]).data, section, key) == Some(value)
    ensures Get(LoadFiles(data, p + [path], fs).data, section, key) == Some(value)
  {
    LoadFilesAppend(data, p, [path], fs);
    var before := LoadFiles(data, p, fs).data;
    ReadOverlay(before, DefaultSection, Kinds(Chunks(fs[path])));
  }

  /** Every file is read from the default section on, whatever section the previous
      file ended in: once the earlier files have loaded, the next one is LoadOne on
      their store, and a file that opens is run from `default`. */
  lemma EachFileStartsInDefault(data: Store, p: seq<string>, path: string, fs: map<string, string>)
    requires LoadFiles(data, p, fs).err == None
    ensures LoadFiles(data, p + [path], fs) == LoadOne(LoadFiles(data, p, fs).data, path, fs)
    ensures path in fs ==>
            var read := Run(LoadFiles(data, p, fs).data, DefaultSection, Kinds(Chunks(fs[path])));
            LoadFiles(data, p + [path], fs) ==
              Loaded(read.data, if read.outcome.Completed? then None else Some(ParsePanic(path, read.outcome.reason)))
  {
    var before := LoadFiles(data, p, fs).data;
    LoadFilesAppend(data, p, [path], fs);
    LoadFilesCons(before, [path], fs);
    assert [path][1..] == [];
  }
}
