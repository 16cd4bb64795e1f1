/** What the body of the read loop of config.go makes of one line once
    `strings.TrimSpace` has been applied to it. */
module IniLine {
  import opened GoStrings

  /** The two lines on which the source indexes out of range and panics. */
  datatype Malformation =
    | MissingSeparator // no `=`: `strings.Split(line, "=")[1]` does not exist
    | EmptyValue       // the value is empty after comment stripping: `value[0]` does not exist

  datatype LineKind =
    | Blank
      /** Starts with `;` or `#`, or with `[` but does not end with `]`. */
    | Comment
    | Header(name: string)
    | Assign(key: string, value: string)
    | Malformed(reason: Malformation)

  /** The markers of an inline comment, in the order the loop tries them. */
  const CommentMarkers: seq<char> := [';', '#']

  /** One round of the comment loop: if `marker` occurs, keep the trimmed text before
      its first occurrence. */
  function CutAt(value: string, marker: char): string {
    if marker in value then TrimSpace(Split(value, marker)[0]) else value
  }

  /** After CutAt the marker is gone, nothing new appeared, and a value without the
      marker is untouched. */
  lemma CutAtSpec(value: string, marker: char)
    ensures var r := CutAt(value, marker);
            marker !in r &&
            (forall c :: c in r ==> c in value) &&
            (marker !in value ==> r == value)
  {
    if marker in value {
      var parts := Split(value, marker);
      SplitSpec(value, marker);
      TrimFuncWithin(parts[0], IsSpace);
    }
  }

  /** When the marker occurs, CutAt keeps the trimmed text before its first occurrence. */
  lemma CutAtFirst(value: string, marker: char)
    requires marker in value
    ensures CutAt(value, marker) == TrimSpace(value[..IndexOf(value, marker)])
  {
    SplitSpec(value, marker);
  }

  /** The comment loop run over `markers`, one CutAt per marker in order. */
  function StripAll(value: string, markers: seq<char>): string
    decreases |markers|
  {
    if markers == [] then value
    else CutAt(StripAll(value, markers[..|markers| - 1]), markers[|markers| - 1])
  }

  /** After the comment loop none of the markers occurs, nothing new appeared, and a
      value without markers is untouched. */
  lemma {:induction false} StripAllSpec(value: string, markers: seq<char>)
    ensures var r := StripAll(value, markers);
            (forall i :: 0 <= i < |markers| ==> markers[i] !in r) &&
            (forall c :: c in r ==> c in value) &&
            ((forall i :: 0 <= i < |markers| ==> markers[i] !in value) ==> r == value)
    decreases |markers|
  {
    if markers != [] {
      var earlier := markers[..|markers| - 1];
      var last := markers[|markers| - 1];
      var mid := StripAll(value, earlier);
      StripAllSpec(value, earlier);
      CutAtSpec(mid, last);
      assert forall i :: 0 <= i < |earlier| ==> earlier[i] == markers[i];
    }
  }

  /** The loop of config.go that removes inline comments, proved to compute StripAll. */
  method StripInlineComments(value: string) returns (v: string)
    ensures v == StripAll(value, CommentMarkers)
    ensures ';' !in v && '#' !in v
    ensures forall c :: c in v ==> c in value
  {
    v := value;
    for i := 0 to |CommentMarkers|
      invariant v == StripAll(value, CommentMarkers[..i])
    {
      var ann := CommentMarkers[i];
      if ann in v {
        v := TrimSpace(Split(v, ann)[0]);
      }
      assert CommentMarkers[..i + 1][..i] == CommentMarkers[..i];
    }
    assert CommentMarkers[..|CommentMarkers|] == CommentMarkers;
    StripAllSpec(value, CommentMarkers);
  }

  /** Quote removal: a value that starts and ends with `"` loses its leading and
      trailing runs of `"`; anything else is kept as it is. */
  function Unquote(v: string): string {
    if |v| > 0 && v[0] == '"' && v[|v| - 1] == '"' then TrimQuotes(v) else v
  }

  /** Unquote adds nothing, and afterwards the value is not wrapped in quotes. */
  lemma UnquoteSpec(v: string)
    ensures var r := Unquote(v);
            (forall c :: c in r ==> c in v) &&
            (r == [] || r[0] != '"' || r[|r| - 1] != '"')
  {
    if |v| > 0 && v[0] == '"' && v[|v| - 1] == '"' {
      TrimFuncWithin(v, IsQuote);
      TrimFuncEnds(v, IsQuote);
    }
  }

  /** The first characters of the lines the `switch` of config.go skips. */
  predicate SkipStart(c: char) {
    c == '[' || c == ';' || c == '#'
  }

  /** The default branch of the `switch`: split on `=`, trim, strip comments and quotes. */
  function ParseAssignment(line: string): LineKind {
    var parts := Split(line, '=');
    if |parts| < 2 then Malformed(MissingSeparator)
    else
      var value := StripAll(TrimSpace(parts[1]), CommentMarkers);
      if value == [] then Malformed(EmptyValue) else Assign(TrimSpace(parts[0]), Unquote(value))
  }

  /** The classification of a trimmed line, branch by branch as in config.go. */
  function ClassifyLine(line: string): LineKind {
    if |line| == 0 then Blank
    else if line[0] == '[' && line[|line| - 1] == ']' then Header(line[1..|line| - 1])
    else if SkipStart(line[0]) then Comment
    else ParseAssignment(line)
  }

  /** The default branch stores an entry or fails; it fails for want of a separator
      exactly when there is no `=`, and what it stores holds no `=` and no comment
      marker. */
  lemma ParseAssignmentCases(line: string)
    ensures var r := ParseAssignment(line);
            (r.Assign? || r.Malformed?) &&
            (r == Malformed(MissingSeparator) <==> '=' !in line) &&
            (r.Assign? ==> '=' !in r.key && '=' !in r.value && ';' !in r.value && '#' !in r.value)
  {
    var parts := Split(line, '=');
    SplitSpec(line, '=');
    if |parts| >= 2 {
      var trimmed := TrimSpace(parts[1]);
      var value := StripAll(trimmed, CommentMarkers);
      if value != [] {
        var unquoted := Unquote(value);
        UnquoteSpec(value);
        StripAllSpec(trimmed, CommentMarkers);
        assert ';' !in unquoted && '#' !in unquoted by {
          assert CommentMarkers[0] == ';' && CommentMarkers[1] == '#';
        }
        assert '=' !in TrimSpace(parts[0]) by { TrimFuncWithin(parts[0], IsSpace); }
        assert '=' !in unquoted by { TrimFuncWithin(parts[1], IsSpace); }
      }
    }
  }

  /** Which kind a line is, in terms of the line itself. */
  lemma ClassifyLineCases(line: string)
    ensures var r := ClassifyLine(line);
            (r == Blank <==> line == []) &&
            (r.Header? <==> |line| >= 2 && line[0] == '[' && line[|line| - 1] == ']') &&
            (r.Header? ==> line == "[" + r.name + "]") &&
            (r == Comment <==> line != [] && SkipStart(line[0]) && !r.Header?) &&
            (r == Malformed(MissingSeparator) <==> line != [] && !SkipStart(line[0]) && '=' !in line) &&
            (r.Assign? ==> !SkipStart(line[0]) && '=' in line) &&
            (r.Assign? ==> '=' !in r.key && '=' !in r.value && ';' !in r.value && '#' !in r.value)
  {
    if |line| > 0 {
      if line[0] == '[' && line[|line| - 1] == ']' {
        assert line == "[" + line[1..|line| - 1] + "]";
      } else if !SkipStart(line[0]) {
        ParseAssignmentCases(line);
      }
    }
  }

  // ---------------------------------------------------------------------------
  // What the classification means for assignment lines

  /** For an assignment line, the key is the trimmed text before the first `=` and the
      value comes from the text after it up to the second `=` or the end. */
  lemma AssignFields(line: string)
    requires line != [] && !SkipStart(line[0]) && IndexOf(line, '=') < |line|
    ensures var i := IndexOf(line, '=');
            var rest := line[i + 1..];
            var value := StripAll(TrimSpace(rest[..IndexOf(rest, '=')]), CommentMarkers);
            ClassifyLine(line) ==
              if value == [] then Malformed(EmptyValue) else Assign(TrimSpace(line[..i]), Unquote(value))
  {
    var i := IndexOf(line, '=');
    IndexOfSpec(line, '=');
    SplitSpec(line[i + 1..], '=');
    assert Split(line, '=') == [line[..i]] + Split(line[i + 1..], '=');
    assert ClassifyLine(line) == ParseAssignment(line);
  }

  /** AssignFields for a line written as key part, `=`, rest. */
  lemma AssignFieldsOf(k: string, rest: string)
    requires '=' !in k
    requires k == [] || !SkipStart(k[0])
    ensures var value := StripAll(TrimSpace(rest[..IndexOf(rest, '=')]), CommentMarkers);
            ClassifyLine(k + "=" + rest) ==
              if value == [] then Malformed(EmptyValue) else Assign(TrimSpace(k), Unquote(value))
  {
    var line := k + "=" + rest;
    IndexOfCons(k, '=', rest);
    assert line[..|k|] == k && line[|k| + 1..] == rest;
    assert line[0] == if k == [] then '=' else k[0];
    assert line[|k|] == '=';
    AssignFields(line);
  }

  /** Whatever follows a second `=` is dropped: `k = v = w` reads as `k = v`. */
  lemma SecondSeparatorDropped(k: string, v: string, w: string)
    requires '=' !in k && '=' !in v
    requires k == [] || !SkipStart(k[0])
    ensures ClassifyLine(k + "=" + v + "=" + w) == ClassifyLine(k + "=" + v)
  {
    var rest := v + "=" + w;
    assert k + "=" + v + "=" + w == k + "=" + rest;
    IndexOfCons(v, '=', w);
    assert rest[..IndexOf(rest, '=')] == v;
    assert v[..IndexOf(v, '=')] == v by { IndexOfSpec(v, '='); }
    AssignFieldsOf(k, rest);
    AssignFieldsOf(k, v);
    assert ClassifyLine(k + "=" + rest) == ClassifyLine(k + "=" + v);
  }

  /** Comment stripping leaves a value without markers alone. */
  lemma NoMarkers(v: string)
    requires ';' !in v && '#' !in v
    ensures StripAll(v, CommentMarkers) == v
  {
    assert CommentMarkers[..1] == [';'] && CommentMarkers[..0] == [];
  }

  /** A key that reads back as itself. */
  predicate PlainKey(k: string) {
    k != [] && !IsSpace(k[0]) && !IsSpace(k[|k| - 1]) && !SkipStart(k[0]) && '=' !in k
  }

  /** A value that reads back as itself: nothing to trim, no separator, no comment
      marker, not wrapped in quotes. */
  predicate PlainValue(v: string) {
    v != [] && !IsSpace(v[0]) && !IsSpace(v[|v| - 1]) &&
    '=' !in v && ';' !in v && '#' !in v && !(v[0] == '"' && v[|v| - 1] == '"')
  }

  /** The line `k = v` as one would write it in a file. */
  function FormatEntry(k: string, v: string): string {
    k + " = " + v
  }

  /** A formatted entry as key part, separator, value part. */
  lemma FormatEntryParts(k: string, v: string)
    ensures FormatEntry(k, v) == (k + " ") + "=" + (" " + v)
  {
  }

  /** The key part `k ` of a formatted entry trims to the key. */
  lemma KeyPart(k: string)
    requires PlainKey(k)
    ensures TrimSpace(k + " ") == k
  {
    TrimFuncTail(k, " ", IsSpace);
  }

  /** The value part ` v` of a formatted entry goes through the value steps unchanged
      but for its leading blank. */
  lemma ValuePart(v: string)
    requires PlainValue(v)
    ensures var rest := " " + v;
            rest[..IndexOf(rest, '=')] == rest &&
            StripAll(TrimSpace(rest), CommentMarkers) == v
  {
    QuotedNoSeparator(v);
    TrimFuncHead(" ", v, IsSpace);
    NoMarkers(v);
  }

  /** A formatted entry is already trimmed. */
  lemma FormattedTrimmed(k: string, v: string)
    requires PlainKey(k) && PlainValue(v)
    ensures TrimSpace(FormatEntry(k, v)) == FormatEntry(k, v)
  {
    var line := FormatEntry(k, v);
    assert line[0] == k[0] && line[|line| - 1] == v[|v| - 1];
    TrimFuncId(line, IsSpace);
  }

  /** Reading a formatted entry gives back its key and value. */
  lemma ParseFormatted(k: string, v: string)
    requires PlainKey(k) && PlainValue(v)
    ensures ClassifyLine(FormatEntry(k, v)) == Assign(k, v)
  {
    FormatEntryParts(k, v);
    assert Unquote(v) == v;
    KeyPart(k);
    ValuePart(v);
    AssignFieldsOf(k + " ", " " + v);
  }

  /** Only the leading and trailing runs of quotes go; quotes inside stay. */
  lemma UnquoteRuns(q1: string, inner: string, q2: string)
    requires q1 != [] && q2 != [] && All(q1, IsQuote) && All(q2, IsQuote)
    requires inner == [] || (inner[0] != '"' && inner[|inner| - 1] != '"')
    ensures Unquote(q1 + inner + q2) == inner
  {
    var v := q1 + inner + q2;
    assert v[0] == q1[0] && v[|v| - 1] == q2[|q2| - 1];
    TrimFuncExact(q1, inner, q2, IsQuote);
  }

  /** The common case of UnquoteRuns: one quote on each side. */
  lemma UnquoteQuoted(inner: string)
    requires inner == [] || (inner[0] != '"' && inner[|inner| - 1] != '"')
    ensures Unquote("\"" + inner + "\"") == inner
  {
    UnquoteRuns("\"", inner, "\"");
  }

  /** Quotes inside a quoted value are kept: `"a"b"` becomes `a"b`. */
  lemma InnerQuoteKept()
    ensures Unquote("\"a\"b\"") == "a\"b"
  {
    UnquoteQuoted("a\"b");
    assert "\"" + "a\"b" + "\"" == "\"a\"b\"";
  }

  /** A lone `"` both starts and ends the value, so it is trimmed away entirely. */
  lemma LoneQuote()
    ensures Unquote("\"") == ""
  {
    TrimFuncExact("\"", "", "", IsQuote);
    assert "\"" + "" + "" == "\"";
  }

  /** `k = "` stores the empty value. */
  lemma ParseLoneQuote(k: string)
    requires PlainKey(k)
    ensures ClassifyLine(k + " = \"") == Assign(k, "")
  {
    var rest := " \"";
    assert k + " = \"" == (k + " ") + "=" + rest;
    TrimFuncTail(k, " ", IsSpace);
    QuotedNoSeparator("\"");
    assert " " + "\"" == rest;
    assert TrimSpace(rest) == "\"" by {
      TrimFuncHead(" ", "\"", IsSpace);
    }
    NoMarkers("\"");
    LoneQuote();
    AssignFieldsOf(k + " ", rest);
  }

  /** A quoted value's text, with its leading blank, has no second `=`. */
  lemma QuotedNoSeparator(quoted: string)
    requires '=' !in quoted
    ensures var rest := " " + quoted; rest[..IndexOf(rest, '=')] == rest
  {
    var rest := " " + quoted;
    assert '=' !in rest;
    IndexOfSpec(rest, '=');
  }

  /** TrimSpace removes only the blank in front of a quoted value. */
  lemma QuotedTrimmed(quoted: string)
    requires |quoted| >= 2 && quoted[0] == '"' && quoted[|quoted| - 1] == '"'
    ensures TrimSpace(" " + quoted) == quoted
  {
    TrimFuncHead(" ", quoted, IsSpace);
  }

  /** The value part ` "inner"` of a quoted entry, taken through the value steps. */
  lemma QuotedValue(inner: string)
    requires '=' !in inner && ';' !in inner && '#' !in inner
    ensures var rest := " " + ("\"" + inner + "\"");
            rest[..IndexOf(rest, '=')] == rest &&
            StripAll(TrimSpace(rest), CommentMarkers) == "\"" + inner + "\""
  {
    var quoted := "\"" + inner + "\"";
    assert '=' !in quoted && ';' !in quoted && '#' !in quoted;
    QuotedNoSeparator(quoted);
    QuotedTrimmed(quoted);
    NoMarkers(quoted);
  }

  /** A quoted entry as key part, separator, value part. */
  lemma QuotedEntryParts(k: string, inner: string)
    ensures k + " = \"" + inner + "\"" == (k + " ") + "=" + (" " + ("\"" + inner + "\""))
  {
  }

  /** A quoted value reads back as the text between the quotes, untrimmed. */
  lemma ParseQuoted(k: string, inner: string)
    requires PlainKey(k)
    requires '=' !in inner && ';' !in inner && '#' !in inner
    requires inner == [] || (inner[0] != '"' && inner[|inner| - 1] != '"')
    ensures ClassifyLine(k + " = \"" + inner + "\"") == Assign(k, inner)
  {
    var rest := " " + ("\"" + inner + "\"");
    QuotedEntryParts(k, inner);
    TrimFuncTail(k, " ", IsSpace);
    QuotedValue(inner);
    UnquoteQuoted(inner);
    AssignFieldsOf(k + " ", rest);
  }

  /** Comment stripping empties a value that starts with a marker. */
  lemma CommentLedStrips(t: string)
    requires t != [] && (t[0] == ';' || t[0] == '#')
    ensures StripAll(t, CommentMarkers) == []
  {
    assert CommentMarkers[..1] == [';'] && CommentMarkers[..0] == [];
    var afterSemicolon := CutAt(t, ';');
    assert StripAll(t, CommentMarkers) == CutAt(afterSemicolon, '#');
    if t[0] == ';' {
      assert IndexOf(t, ';') == 0;
    } else {
      if ';' in t {
        var before := Split(t, ';')[0];
        assert before != [] && before[0] == '#';
        TrimFuncKeepsHead(before, IsSpace);
      }
      assert afterSemicolon[0] == '#';
      assert IndexOf(afterSemicolon, '#') == 0;
    }
  }

  /** A value that is all comment, as in `k = #x` or `k = ; x`, leaves nothing: the line
      is the empty-value crash. */
  lemma CommentedOutValue(k: string, v: string)
    requires '=' !in k && '=' !in v
    requires k == [] || !SkipStart(k[0])
    requires TrimSpace(v) != [] && (TrimSpace(v)[0] == ';' || TrimSpace(v)[0] == '#')
    ensures ClassifyLine(k + "=" + v) == Malformed(EmptyValue)
  {
    assert v[..IndexOf(v, '=')] == v by {
      IndexOfSpec(v, '=');
    }
    CommentLedStrips(TrimSpace(v));
    AssignFieldsOf(k, v);
  }
}
