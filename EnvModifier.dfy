/** The `.env` patcher: keeps `KEY=value` lines in a group between the
    `###> name` and `###< name` lines. Lines for a key found elsewhere in
    the file are first pulled into the group; then the key is either
    replaced (overwrite) or left alone if present. */
module EnvModifier {
  import opened Outcomes
  import opened Text
  import opened MarkerGroup

  /** The lines that start with `prefix` (`matching`) or do not, in order. */
  function Keep(lines: seq<string>, prefix: string, matching: bool): (r: seq<string>)
    ensures |r| <= |lines|
    decreases |lines|
  {
    if lines == [] then []
    else
      var r := Keep(lines[..|lines| - 1], prefix, matching);
      var last := lines[|lines| - 1];
      if StartsWith(last, prefix) == matching then r + [last] else r
  }

  /** A line is kept exactly when it is a line and agrees with `matching`. */
  lemma {:induction false} KeepMembers(lines: seq<string>, prefix: string, matching: bool)
    ensures forall l :: l in Keep(lines, prefix, matching) <==> l in lines && StartsWith(l, prefix) == matching
    decreases |lines|
  {
    if lines != [] {
      var init := lines[..|lines| - 1];
      KeepMembers(init, prefix, matching);
      assert lines == init + [lines[|lines| - 1]];
    }
  }

  /** The lines with the prefix and those without partition the lines. */
  lemma {:induction false} KeepPartition(lines: seq<string>, prefix: string)
    ensures multiset(Keep(lines, prefix, true)) + multiset(Keep(lines, prefix, false)) == multiset(lines)
    decreases |lines|
  {
    if lines != [] {
      var init := lines[..|lines| - 1];
      KeepPartition(init, prefix);
      assert lines == init + [lines[|lines| - 1]];
    }
  }

  lemma {:induction false} KeepConcat(a: seq<string>, b: seq<string>, prefix: string, matching: bool)
    ensures Keep(a + b, prefix, matching) == Keep(a, prefix, matching) + Keep(b, prefix, matching)
    decreases |b|
  {
    if b != [] {
      var init := b[..|b| - 1];
      KeepConcat(a, init, prefix, matching);
      assert (a + b)[..|a + b| - 1] == a + init;
      assert (a + b)[|a + b| - 1] == b[|b| - 1];
    } else {
      assert a + b == a;
    }
  }

  /** When every line agrees, keeping those lines keeps them all. */
  lemma {:induction false} KeepAll(lines: seq<string>, prefix: string, matching: bool)
    requires forall l :: l in lines ==> StartsWith(l, prefix) == matching
    ensures Keep(lines, prefix, matching) == lines
    ensures Keep(lines, prefix, !matching) == []
    decreases |lines|
  {
    if lines != [] {
      var init := lines[..|lines| - 1];
      assert forall l :: l in init ==> l in lines;
      KeepAll(init, prefix, matching);
      assert lines == init + [lines[|lines| - 1]];
    }
  }

  /** With no line starting with `prefix`, every line is kept. */
  lemma {:induction false} KeepNone(lines: seq<string>, prefix: string)
    requires Keep(lines, prefix, true) == []
    ensures Keep(lines, prefix, false) == lines
    decreases |lines|
  {
    if lines != [] {
      var init := lines[..|lines| - 1];
      KeepNone(init, prefix);
      assert lines == init + [lines[|lines| - 1]];
    }
  }

  /** Keeping the kept lines again changes nothing; keeping the others
      keeps none of them. */
  lemma KeepKept(lines: seq<string>, prefix: string, matching: bool)
    ensures Keep(Keep(lines, prefix, matching), prefix, matching) == Keep(lines, prefix, matching)
    ensures Keep(Keep(lines, prefix, matching), prefix, !matching) == []
  {
    var kept := Keep(lines, prefix, matching);
    KeepMembers(lines, prefix, matching);
    KeepAll(kept, prefix, matching);
  }

  lemma Keep3(a: seq<string>, b: seq<string>, c: seq<string>, prefix: string, matching: bool)
    ensures Keep(a + b + c, prefix, matching) == Keep(a, prefix, matching) + Keep(b, prefix, matching) + Keep(c, prefix, matching)
  {
    KeepConcat(a, b, prefix, matching);
    KeepConcat(a + b, c, prefix, matching);
  }

  /** Some line starts with `prefix` exactly when keeping such lines keeps one. */
  lemma KeepAny(lines: seq<string>, prefix: string)
    ensures AnyStartsWith(lines, prefix) <==> Keep(lines, prefix, true) != []
  {
    var kept := Keep(lines, prefix, true);
    KeepMembers(lines, prefix, true);
    if kept != [] {
      assert kept[0] in lines;
      var i :| 0 <= i < |lines| && lines[i] == kept[0];
      assert StartsWith(lines[i], prefix);
    }
    if AnyStartsWith(lines, prefix) {
      var i :| 0 <= i < |lines| && StartsWith(lines[i], prefix);
      assert lines[i] in kept;
    }
  }

  /** A character a value may hold to be written without quotes. */
  predicate BareChar(c: char) {
    'A' <= c <= 'Z' || 'a' <= c <= 'z' || '0' <= c <= '9' || c == '_' || c == '.' || c == '/' || c == '-'
  }

  /** A value matching `^[A-Za-z0-9_./-]+$` in PCRE, where `$` also matches
      just before a final line break. */
  predicate Bare(value: string) {
    var body := BareBody(value);
    body != [] && forall i :: 0 <= i < |body| ==> BareChar(body[i])
  }

  /** The part of a value the character class must cover: all of it but
      one final line break. */
  function BareBody(value: string): (body: string)
    ensures body <= value && |value| - 1 <= |body|
  {
    if value != [] && value[|value| - 1] == '\n' then value[..|value| - 1] else value
  }

  /** `addcslashes` on one character, for the list backslash, double quote,
      line feed, carriage return, tab and dollar: the control characters
      become their C escapes, the others get a backslash in front. */
  function EscapeChar(c: char): (r: string)
    ensures '\n' !in r && '\r' !in r
  {
    if c == '\n' then "\\n"
    else if c == '\r' then "\\r"
    else if c == '\t' then "\\t"
    else if c == '\\' || c == '"' || c == '$' then ['\\', c]
    else [c]
  }

  function Escape(value: string): string
    decreases |value|
  {
    if value == [] then [] else EscapeChar(value[0]) + Escape(value[1..])
  }

  /** An escaped value holds no line break or carriage return. */
  lemma {:induction false} EscapeOneLine(value: string)
    ensures '\n' !in Escape(value) && '\r' !in Escape(value)
    decreases |value|
  {
    if value != [] {
      EscapeOneLine(value[1..]);
    }
  }

  /** Reads a quoted value back: a backslash takes the next character
      literally, `\n`, `\r` and `\t` stand for the control characters. */
  function Unescape(text: string): string
    decreases |text|
  {
    if text == [] then []
    else if text[0] == '\\' && |text| >= 2 then
      var c := text[1];
      [if c == 'n' then '\n' else if c == 'r' then '\r' else if c == 't' then '\t' else c]
        + Unescape(text[2..])
    else [text[0]] + Unescape(text[1..])
  }

  /** Quoting a value and reading it back gives the value. */
  lemma {:induction false} UnescapeEscape(value: string)
    ensures Unescape(Escape(value)) == value
    decreases |value|
  {
    if value != [] {
      UnescapeEscape(value[1..]);
      UnescapeEscapeChar(value[0], Escape(value[1..]));
      assert value == [value[0]] + value[1..];
    }
  }

  /** Reading back one escaped character takes exactly its escape. */
  lemma UnescapeEscapeChar(c: char, rest: string)
    ensures Unescape(EscapeChar(c) + rest) == [c] + Unescape(rest)
  {
    var e := EscapeChar(c);
    if |e| == 2 {
      assert (e + rest)[2..] == rest;
    } else {
      assert (e + rest)[1..] == rest;
    }
  }

  /** `createEnvLine`: `KEY=value` for a bare value, `KEY="…"` with the
      value escaped otherwise. */
  function CreateEnvLine(key: string, value: string): string {
    var k := Upper(key);
    if Bare(value) then k + "=" + value else k + "=\"" + Escape(value) + "\""
  }

  /** An env line starts with the upper-cased key and `=`, and is a single
      line unless the key holds a line break or the value is bare with a
      final one. */
  lemma EnvLineShape(key: string, value: string)
    ensures StartsWith(CreateEnvLine(key, value), Upper(key) + "=")
    ensures EOL !in key && !(Bare(value) && EOL in value) ==> EOL !in CreateEnvLine(key, value)
  {
    EscapeOneLine(value);
    if EOL !in key {
      UpperKeepsOut(key, EOL);
    }
  }

  /** A reader for the lines `createEnvLine` writes: the key up to the
      first `=`, and the value either quoted and unescaped or taken as is. */
  function ReadEnvLine(line: string): Option<(string, string)> {
    match IndexOf(line, '=')
    case None => None
    case Some(i) =>
      var rest := line[i + 1..];
      if |rest| >= 2 && rest[0] == '"' && rest[|rest| - 1] == '"' then
        Some((line[..i], Unescape(rest[1..|rest| - 1])))
      else
        Some((line[..i], rest))
  }

  /** A key without `=` reads back upper-cased, with its value intact. */
  lemma ReadCreatedLine(key: string, value: string)
    requires '=' !in key
    ensures ReadEnvLine(CreateEnvLine(key, value)) == Some((Upper(key), value))
  {
    UpperKeepsOut(key, '=');
    if Bare(value) {
      ReadBareLine(Upper(key), value);
    } else {
      ReadQuotedLine(Upper(key), value);
    }
  }

  lemma ReadQuotedLine(k: string, value: string)
    requires '=' !in k
    ensures ReadEnvLine(k + "=\"" + Escape(value) + "\"") == Some((k, value))
  {
    var rest := "\"" + Escape(value) + "\"";
    assert k + "=\"" + Escape(value) + "\"" == k + "=" + rest;
    assert rest[1..|rest| - 1] == Escape(value);
    UnescapeEscape(value);
    ReadLine(k, rest);
  }

  lemma ReadBareLine(k: string, value: string)
    requires '=' !in k && Bare(value)
    ensures ReadEnvLine(k + "=" + value) == Some((k, value))
  {
    assert BareChar(BareBody(value)[0]);
    ReadLine(k, value);
  }

  /** Upper-casing adds no character outside the letters. */
  lemma UpperKeepsOut(s: string, c: char)
    requires c !in s && !('A' <= c <= 'Z')
    ensures c !in Upper(s)
  {
    forall i | 0 <= i < |s|
      ensures Upper(s)[i] != c
    {
      assert s[i] != c;
    }
  }

  /** The reader splits `k=rest` at the `=` after a key without one. */
  lemma ReadLine(k: string, rest: string)
    requires '=' !in k
    ensures IndexOf(k + "=" + rest, '=') == Some(|k|)
    ensures |rest| >= 2 && rest[0] == '"' && rest[|rest| - 1] == '"' ==>
      ReadEnvLine(k + "=" + rest) == Some((k, Unescape(rest[1..|rest| - 1])))
    ensures !(|rest| >= 2 && rest[0] == '"' && rest[|rest| - 1] == '"') ==>
      ReadEnvLine(k + "=" + rest) == Some((k, rest))
  {
    var line := k + "=" + rest;
    assert line[..|k|] == k;
    IndexAfterFree(line, k, '=');
    assert line[|k| + 1..] == rest;
  }

  /** The first `c` in `pre + [c] + …` is the one right after `pre`. */
  lemma IndexAfterFree(line: string, pre: string, c: char)
    requires |pre| < |line| && line[..|pre|] == pre && line[|pre|] == c && c !in pre
    ensures IndexOf(line, c) == Some(|pre|)
  {
    NotInPrefix(line, c, |pre|);
  }

  /** What `mb_strtoupper` throws under strict typing for a key PHP stores
      as an integer. */
  const IntKeyFailure: Failure := EngineError("mb_strtoupper(): Argument #1 ($string) must be of type string, int given")

  /** Whether some line starts with `prefix`. */
  predicate AnyStartsWith(lines: seq<string>, prefix: string) {
    exists i :: 0 <= i < |lines| && StartsWith(lines[i], prefix)
  }

  /** One entry of `add`: the key is upper-cased; every line outside the
      group that starts with `KEY=` is moved to the end of the group; then
      either all group lines for the key give way to a new line
      (overwrite), or a new line is appended only if the group has none.
      Also tells whether a line was added. */
  function Step(sec: Sections, key: string, value: string, overwrite: bool): (Sections, bool) {
    var k := Upper(key);
    var search := k + "=";
    var group := sec.group + Keep(sec.before, search, true) + Keep(sec.after, search, true);
    var before := Keep(sec.before, search, false);
    var after := Keep(sec.after, search, false);
    if overwrite then
      (Sections(before, Keep(group, search, false) + [CreateEnvLine(k, value)], after), true)
    else if AnyStartsWith(group, search) then
      (Sections(before, group, after), false)
    else
      (Sections(before, group + [CreateEnvLine(k, value)], after), true)
  }

  /** The lines of the file in order, sentinels included. */
  function AllLines(sec: Sections): seq<string> {
    sec.before + sec.group + sec.after
  }

  /** With overwrite, the entry leaves exactly one line for its key in the
      file, the new one at the end of the group; every other line stays,
      in order. */
  lemma StepOverwrite(sec: Sections, key: string, value: string)
    ensures var (next, isNew) := Step(sec, key, value, true);
      var search := Upper(key) + "=";
      && isNew
      && next.group == Keep(sec.group, search, false) + [CreateEnvLine(key, value)]
      && Keep(AllLines(next), search, true) == [CreateEnvLine(key, value)]
      && Keep(AllLines(next), search, false) == Keep(AllLines(sec), search, false)
  {
    UpperIdempotent(key);
    EnvLineShape(key, value);
    OverwriteLines(sec, Upper(key) + "=", CreateEnvLine(key, value));
  }

  lemma OverwriteLines(sec: Sections, search: string, line: string)
    requires StartsWith(line, search)
    ensures var grown := sec.group + Keep(sec.before, search, true) + Keep(sec.after, search, true);
      var next := Sections(Keep(sec.before, search, false), Keep(grown, search, false) + [line], Keep(sec.after, search, false));
      && next.group == Keep(sec.group, search, false) + [line]
      && Keep(AllLines(next), search, true) == [line]
      && Keep(AllLines(next), search, false) == Keep(AllLines(sec), search, false)
  {
    var b, a := Keep(sec.before, search, false), Keep(sec.after, search, false);
    var group := Keep(sec.group, search, false);
    assert Keep(sec.group + Keep(sec.before, search, true) + Keep(sec.after, search, true), search, false) == group by {
      GrownOthers(sec, search);
    }
    assert Keep(b + (group + [line]) + a, search, true) == [line] by {
      KeepKept(sec.before, search, false);
      KeepKept(sec.after, search, false);
      KeepKept(sec.group, search, false);
      AppendedKeep(group, line, search);
      Keep3(b, group + [line], a, search, true);
    }
    assert Keep(b + (group + [line]) + a, search, false) == b + group + a by {
      KeepKept(sec.before, search, false);
      KeepKept(sec.after, search, false);
      KeepKept(sec.group, search, false);
      AppendedKeep(group, line, search);
      Keep3(b, group + [line], a, search, false);
    }
    Keep3(sec.before, sec.group, sec.after, search, false);
  }

  /** The relocated lines all have the key, so dropping the key's lines
      from the grown group leaves the group's other lines. */
  lemma GrownOthers(sec: Sections, search: string)
    ensures Keep(sec.group + Keep(sec.before, search, true) + Keep(sec.after, search, true), search, false)
      == Keep(sec.group, search, false)
  {
    KeepKept(sec.before, search, true);
    KeepKept(sec.after, search, true);
    Keep3(sec.group, Keep(sec.before, search, true), Keep(sec.after, search, true), search, false);
  }

  /** A line with the key appended after lines without it. */
  lemma AppendedKeep(group: seq<string>, line: string, search: string)
    requires StartsWith(line, search) && Keep(group, search, true) == []
    ensures Keep(group + [line], search, true) == [line]
    ensures Keep(group + [line], search, false) == group
  {
    KeepNone(group, search);
    KeepConcat(group, [line], search, true);
    KeepConcat(group, [line], search, false);
    assert Keep([line], search, true) == [line];
    assert Keep([line], search, false) == [];
  }

  /** Without overwrite, the entry adds its line at the end of the group
      exactly when no line of the file has its key, and leaves the rest
      alone; otherwise it only moves the key's lines from outside into
      the group, losing none. */
  lemma StepKeep(sec: Sections, key: string, value: string)
    ensures var (next, isNew) := Step(sec, key, value, false);
      var search := Upper(key) + "=";
      && (isNew <==> !AnyStartsWith(AllLines(sec), search))
      && (isNew ==> next == sec.(group := sec.group + [CreateEnvLine(key, value)]))
      && (!isNew ==> && next.group == sec.group + Keep(sec.before, search, true) + Keep(sec.after, search, true)
                     && Keep(next.before + next.after, search, true) == []
                     && multiset(AllLines(next)) == multiset(AllLines(sec))
                     && Keep(AllLines(next), search, false) == Keep(AllLines(sec), search, false))
  {
    UpperIdempotent(key);
    var search := Upper(key) + "=";
    KeepLines(sec, search);
    if !AnyStartsWith(AllLines(sec), search) {
      AbsentLines(sec, search);
    } else {
      PresentLines(sec, search);
    }
  }

  /** The relocated group has a line for the key exactly when the file has. */
  lemma KeepLines(sec: Sections, search: string)
    ensures var grown := sec.group + Keep(sec.before, search, true) + Keep(sec.after, search, true);
      AnyStartsWith(grown, search) <==> AnyStartsWith(AllLines(sec), search)
  {
    var (before, after) := (sec.before, sec.after);
    var grown := sec.group + Keep(before, search, true) + Keep(after, search, true);
    KeepAny(AllLines(sec), search);
    KeepAny(grown, search);
    Keep3(before, sec.group, after, search, true);
    KeepKept(before, search, true);
    KeepKept(after, search, true);
    Keep3(sec.group, Keep(before, search, true), Keep(after, search, true), search, true);
  }

  lemma AbsentLines(sec: Sections, search: string)
    requires !AnyStartsWith(AllLines(sec), search)
    ensures Keep(sec.before, search, false) == sec.before
    ensures Keep(sec.after, search, false) == sec.after
    ensures Keep(sec.before, search, true) == [] && Keep(sec.after, search, true) == []
  {
    KeepAny(AllLines(sec), search);
    Keep3(sec.before, sec.group, sec.after, search, true);
    KeepNone(sec.before, search);
    KeepNone(sec.after, search);
  }

  lemma PresentLines(sec: Sections, search: string)
    ensures var grown := sec.group + Keep(sec.before, search, true) + Keep(sec.after, search, true);
      var next := Sections(Keep(sec.before, search, false), grown, Keep(sec.after, search, false));
      && Keep(next.before + next.after, search, true) == []
      && multiset(AllLines(next)) == multiset(AllLines(sec))
      && Keep(AllLines(next), search, false) == Keep(AllLines(sec), search, false)
  {
    var b, a := Keep(sec.before, search, false), Keep(sec.after, search, false);
    var grown := sec.group + Keep(sec.before, search, true) + Keep(sec.after, search, true);
    assert Keep(b + a, search, true) == [] by {
      KeepKept(sec.before, search, false);
      KeepKept(sec.after, search, false);
      KeepConcat(b, a, search, true);
    }
    assert multiset(b + grown + a) == multiset(sec.before + sec.group + sec.after) by {
      KeepPartition(sec.before, search);
      KeepPartition(sec.after, search);
    }
    assert Keep(b + grown + a, search, false) == b + Keep(sec.group, search, false) + a by {
      GrownOthers(sec, search);
      KeepKept(sec.before, search, false);
      KeepKept(sec.after, search, false);
      Keep3(b, grown, a, search, false);
    }
    Keep3(sec.before, sec.group, sec.after, search, false);
  }

  /** What one entry with a string key does to the sections: the new
      sections, and whether it added a line. */
  type EntryStep = (Sections, string, string) -> (Sections, bool)

  /** The step of `add` for the given overwrite policy. */
  function StepOf(overwrite: bool): EntryStep {
    (sec, key, value) => Step(sec, key, value, overwrite)
  }

  lemma StepOfApplies(overwrite: bool, sec: Sections, key: string, value: string)
    ensures StepOf(overwrite)(sec, key, value) == Step(sec, key, value, overwrite)
  {
  }

  /** The first `n` entries in order: the sections and the added and
      skipped counts, or the failure on the first key PHP stores as an
      integer. */
  function Fold(sec: Sections, entries: seq<(ArrayKey, string)>, n: nat, step: EntryStep): (r: Result<(Sections, nat, nat)>)
    requires n <= |entries|
    ensures r.Err? <==> exists i :: 0 <= i < n && entries[i].0.Int?
    ensures r.Err? ==> r.failure == IntKeyFailure
    ensures r.Ok? ==> r.value.1 + r.value.2 == n
    decreases n
  {
    if n == 0 then Ok((sec, 0, 0))
    else Next(Fold(sec, entries, n - 1, step), entries[n - 1], step)
  }

  /** One turn of the entry loop on the state so far. */
  function Next(state: Result<(Sections, nat, nat)>, entry: (ArrayKey, string), step: EntryStep): (r: Result<(Sections, nat, nat)>)
    ensures r.Err? <==> state.Err? || entry.0.Int?
    ensures r.Err? ==> r.failure == if state.Err? then state.failure else IntKeyFailure
    ensures r.Ok? ==> r.value.1 + r.value.2 == state.value.1 + state.value.2 + 1
  {
    var done :- state;
    if entry.0.Int? then Err(IntKeyFailure)
    else
      var (next, isNew) := step(done.0, entry.0.s, entry.1);
      Ok((next, if isNew then done.1 + 1 else done.1, if isNew then done.2 else done.2 + 1))
  }

  /** One more entry whose key stays a string takes one step. */
  lemma FoldNext(sec: Sections, entries: seq<(ArrayKey, string)>, n: nat, step: EntryStep, done: (Sections, nat, nat))
    requires n < |entries| && entries[n].0.Str?
    requires Fold(sec, entries, n, step) == Ok(done)
    ensures var (next, isNew) := step(done.0, entries[n].0.s, entries[n].1);
      Fold(sec, entries, n + 1, step)
        == Ok((next, if isNew then done.1 + 1 else done.1, if isNew then done.2 else done.2 + 1))
  {
  }

  /** Each line after a step was a line before it or is the entry's new
      line. */
  lemma StepLinesFrom(sec: Sections, key: string, value: string, overwrite: bool)
    ensures forall l :: l in AllLines(Step(sec, key, value, overwrite).0) ==>
      l in AllLines(sec) || l == CreateEnvLine(key, value)
  {
    UpperIdempotent(key);
    var search := Upper(key) + "=";
    var grown := sec.group + Keep(sec.before, search, true) + Keep(sec.after, search, true);
    KeepMembers(sec.before, search, true);
    KeepMembers(sec.after, search, true);
    KeepMembers(sec.before, search, false);
    KeepMembers(sec.after, search, false);
    KeepMembers(grown, search, false);
  }

  /** A step for a key no line outside the group has leaves the lines
      outside the group where they are. */
  lemma StepOutsideKept(sec: Sections, key: string, value: string, overwrite: bool)
    requires !AnyStartsWith(sec.before, Upper(key) + "=") && !AnyStartsWith(sec.after, Upper(key) + "=")
    ensures var next := Step(sec, key, value, overwrite).0;
      next.before == sec.before && next.after == sec.after
  {
    var search := Upper(key) + "=";
    KeepAny(sec.before, search);
    KeepAny(sec.after, search);
    KeepNone(sec.before, search);
    KeepNone(sec.after, search);
  }

  /** Entries whose keys PHP keeps as strings, keys without line breaks,
      and values that give a single line: a quoted value has its line
      breaks escaped, so only a bare value must not hold one. */
  predicate PlainEntries(entries: seq<(ArrayKey, string)>) {
    forall i :: 0 <= i < |entries| ==>
      entries[i].0.Str? && EOL !in entries[i].0.s && !(Bare(entries[i].1) && EOL in entries[i].1)
  }

  /** No line of `lines` starts with the key of any entry. */
  predicate Untouched(lines: seq<string>, entries: seq<(ArrayKey, string)>) {
    forall i, j :: 0 <= i < |entries| && 0 <= j < |lines| && entries[i].0.Str? ==>
      !StartsWith(lines[j], Upper(entries[i].0.s) + "=")
  }

  /** A step that keeps each line it is given or adds a single line
      holding `=`, when the key and the line written for the value are
      single lines. */
  ghost predicate LineSafe(step: EntryStep) {
    forall sec, key, value :: EOL !in key && !(Bare(value) && EOL in value) ==>
      forall l :: l in AllLines(step(sec, key, value).0) ==> l in AllLines(sec) || ('=' in l && EOL !in l)
  }

  /** A step that leaves the lines outside the group alone when none of
      them carries the key. */
  ghost predicate OutsideSafe(step: EntryStep) {
    forall sec: Sections, key: string, value: string ::
      !AnyStartsWith(sec.before, Upper(key) + "=") && !AnyStartsWith(sec.after, Upper(key) + "=") ==>
        step(sec, key, value).0.before == sec.before && step(sec, key, value).0.after == sec.after
  }

  /** A step whose group holds only lines it held before and lines
      holding `=`. */
  ghost predicate GroupSafe(step: EntryStep) {
    forall sec, key, value ::
      forall l :: l in step(sec, key, value).0.group ==> l in sec.group || '=' in l
  }

  lemma StepOfGroupSafe(overwrite: bool)
    ensures GroupSafe(StepOf(overwrite))
  {
    forall sec, key, value
      ensures forall l :: l in StepOf(overwrite)(sec, key, value).0.group ==> l in sec.group || '=' in l
    {
      StepGroupFrom(sec, key, value, overwrite);
    }
  }

  /** Each group line after a step was a group line before it or starts
      with the key and `=`. */
  lemma StepGroupFrom(sec: Sections, key: string, value: string, overwrite: bool)
    ensures forall l :: l in Step(sec, key, value, overwrite).0.group ==> l in sec.group || '=' in l
  {
    UpperIdempotent(key);
    var search := Upper(key) + "=";
    var grown := sec.group + Keep(sec.before, search, true) + Keep(sec.after, search, true);
    KeepMembers(sec.before, search, true);
    KeepMembers(sec.after, search, true);
    KeepMembers(grown, search, false);
    EnvLineShape(key, value);
    forall l | StartsWith(l, search)
      ensures '=' in l
    {
      assert l[|search| - 1] == '=';
    }
  }

  lemma StepOfLineSafe(overwrite: bool)
    ensures LineSafe(StepOf(overwrite))
  {
    forall sec, key, value | EOL !in key && !(Bare(value) && EOL in value)
      ensures forall l :: l in AllLines(StepOf(overwrite)(sec, key, value).0) ==> l in AllLines(sec) || ('=' in l && EOL !in l)
    {
      StepLinesFrom(sec, key, value, overwrite);
      EnvLineShape(key, value);
      assert CreateEnvLine(key, value)[|Upper(key)|] == '=';
    }
  }

  lemma StepOfOutsideSafe(overwrite: bool)
    ensures OutsideSafe(StepOf(overwrite))
  {
    forall sec: Sections, key: string, value: string | !AnyStartsWith(sec.before, Upper(key) + "=") && !AnyStartsWith(sec.after, Upper(key) + "=")
      ensures StepOf(overwrite)(sec, key, value).0.before == sec.before
      ensures StepOf(overwrite)(sec, key, value).0.after == sec.after
    {
      StepOutsideKept(sec, key, value, overwrite);
    }
  }

  /** With plain entries the fold goes through, and each line it leaves is
      a line it was given or a single line holding `=`. */
  lemma {:induction false} FoldLines(sec: Sections, entries: seq<(ArrayKey, string)>, n: nat, step: EntryStep)
    requires n <= |entries| && PlainEntries(entries) && LineSafe(step)
    ensures Fold(sec, entries, n, step).Ok?
    ensures var next := Fold(sec, entries, n, step).value.0;
      forall l :: l in AllLines(next) ==> l in AllLines(sec) || ('=' in l && EOL !in l)
    decreases n
  {
    if n > 0 {
      FoldLines(sec, entries, n - 1, step);
      FoldNext(sec, entries, n - 1, step, Fold(sec, entries, n - 1, step).value);
    }
  }

  /** Each group line after the fold was a group line before it or holds
      `=`. */
  lemma {:induction false} FoldGroup(sec: Sections, entries: seq<(ArrayKey, string)>, n: nat, step: EntryStep)
    requires n <= |entries| && GroupSafe(step)
    requires Fold(sec, entries, n, step).Ok?
    ensures forall l :: l in Fold(sec, entries, n, step).value.0.group ==> l in sec.group || '=' in l
    decreases n
  {
    if n > 0 {
      FoldGroup(sec, entries, n - 1, step);
      FoldNext(sec, entries, n - 1, step, Fold(sec, entries, n - 1, step).value);
    }
  }

  /** Lines outside the group that carry no entry's key stay in place. */
  lemma {:induction false} FoldOutside(sec: Sections, entries: seq<(ArrayKey, string)>, n: nat, step: EntryStep)
    requires n <= |entries| && OutsideSafe(step)
    requires Untouched(sec.before, entries) && Untouched(sec.after, entries)
    requires Fold(sec, entries, n, step).Ok?
    ensures var next := Fold(sec, entries, n, step).value.0;
      next.before == sec.before && next.after == sec.after
    decreases n
  {
    if n > 0 {
      FoldOutside(sec, entries, n - 1, step);
      var key := entries[n - 1].0.s;
      assert !AnyStartsWith(sec.before, Upper(key) + "=");
      assert !AnyStartsWith(sec.after, Upper(key) + "=");
      FoldNext(sec, entries, n - 1, step, Fold(sec, entries, n - 1, step).value);
    }
  }

  /** The lines left of `lines` once every line starting with the key of
      one of the first `n` entries has been taken out, in their order. */
  function Unkeyed(lines: seq<string>, entries: seq<(ArrayKey, string)>, n: nat): seq<string>
    requires n <= |entries|
    decreases n
  {
    if n == 0 then lines
    else
      var rest := Unkeyed(lines, entries, n - 1);
      if entries[n - 1].0.Str? then Keep(rest, Upper(entries[n - 1].0.s) + "=", false) else rest
  }

  /** A line survives exactly when it carries none of the keys. */
  lemma {:induction false} UnkeyedMembers(lines: seq<string>, entries: seq<(ArrayKey, string)>, n: nat)
    requires n <= |entries|
    ensures forall l :: l in Unkeyed(lines, entries, n) <==>
      l in lines && forall i :: 0 <= i < n && entries[i].0.Str? ==> !StartsWith(l, Upper(entries[i].0.s) + "=")
    decreases n
  {
    if n > 0 {
      UnkeyedMembers(lines, entries, n - 1);
      if entries[n - 1].0.Str? {
        KeepMembers(Unkeyed(lines, entries, n - 1), Upper(entries[n - 1].0.s) + "=", false);
      }
    }
  }

  /** Taking lines out works line by line, so the survivors keep their
      order. */
  lemma {:induction false} UnkeyedConcat(a: seq<string>, b: seq<string>, entries: seq<(ArrayKey, string)>, n: nat)
    requires n <= |entries|
    ensures Unkeyed(a + b, entries, n) == Unkeyed(a, entries, n) + Unkeyed(b, entries, n)
    decreases n
  {
    if n > 0 {
      UnkeyedConcat(a, b, entries, n - 1);
      if entries[n - 1].0.Str? {
        KeepConcat(Unkeyed(a, entries, n - 1), Unkeyed(b, entries, n - 1), Upper(entries[n - 1].0.s) + "=", false);
      }
    }
  }

  /** A step that keeps, outside the group, the lines without the key. */
  ghost predicate KeepsOutside(step: EntryStep) {
    forall sec: Sections, key: string, value: string ::
      step(sec, key, value).0.before == Keep(sec.before, Upper(key) + "=", false) &&
      step(sec, key, value).0.after == Keep(sec.after, Upper(key) + "=", false)
  }

  lemma StepOfKeepsOutside(overwrite: bool)
    ensures KeepsOutside(StepOf(overwrite))
  {
    forall sec: Sections, key: string, value: string
      ensures StepOf(overwrite)(sec, key, value).0.before == Keep(sec.before, Upper(key) + "=", false)
      ensures StepOf(overwrite)(sec, key, value).0.after == Keep(sec.after, Upper(key) + "=", false)
    {
      StepOfApplies(overwrite, sec, key, value);
    }
  }

  /** Outside the group, `add` leaves exactly the lines that carry no
      entry's key, in their order: every other line has been moved into
      the group. */
  lemma {:induction false} FoldOutsideUnkeyed(sec: Sections, entries: seq<(ArrayKey, string)>, n: nat, step: EntryStep)
    requires n <= |entries| && KeepsOutside(step)
    requires Fold(sec, entries, n, step).Ok?
    ensures var next := Fold(sec, entries, n, step).value.0;
      next.before == Unkeyed(sec.before, entries, n) && next.after == Unkeyed(sec.after, entries, n)
    decreases n
  {
    if n > 0 {
      assert Fold(sec, entries, n, step) == Next(Fold(sec, entries, n - 1, step), entries[n - 1], step);
      assert Fold(sec, entries, n - 1, step).Ok? && entries[n - 1].0.Str?;
      FoldOutsideUnkeyed(sec, entries, n - 1, step);
      var done := Fold(sec, entries, n - 1, step).value;
      assert done.0.before == Unkeyed(sec.before, entries, n - 1);
      assert done.0.after == Unkeyed(sec.after, entries, n - 1);
      FoldNext(sec, entries, n - 1, step, done);
      UnkeyedStep(sec, done.0, entries, n, step);
    }
  }

  lemma UnkeyedStep(sec: Sections, done: Sections, entries: seq<(ArrayKey, string)>, n: nat, step: EntryStep)
    requires 0 < n <= |entries| && entries[n - 1].0.Str? && KeepsOutside(step)
    requires done.before == Unkeyed(sec.before, entries, n - 1) && done.after == Unkeyed(sec.after, entries, n - 1)
    ensures var next := step(done, entries[n - 1].0.s, entries[n - 1].1).0;
      next.before == Unkeyed(sec.before, entries, n) && next.after == Unkeyed(sec.after, entries, n)
  {
  }

  /** The file `add` returns. */
  function WithEnv(content: string, entries: seq<(ArrayKey, string)>, groupName: string, overwrite: bool): Result<string> {
    var sec :- OpenGroup(content, groupName);
    var done :- Fold(sec, entries, |entries|, StepOf(overwrite));
    Ok(Render(done.0))
  }

  /** Line by line, the file `add` returns is the sections after the last
      entry and a final empty line. */
  lemma AddLines(content: string, entries: seq<(ArrayKey, string)>, groupName: string, overwrite: bool)
    requires OpenGroup(content, groupName).Ok?
    requires EOL !in groupName && PlainEntries(entries)
    ensures WithEnv(content, entries, groupName, overwrite).Ok?
    ensures var sec := OpenGroup(content, groupName).value;
      Split(WithEnv(content, entries, groupName, overwrite).value, EOL)
        == AllLines(Fold(sec, entries, |entries|, StepOf(overwrite)).value.0) + [""]
  {
    var sec := OpenGroup(content, groupName).value;
    OpenedSingleLines(content, groupName);
    StepOfLineSafe(overwrite);
    FoldLines(sec, entries, |entries|, StepOf(overwrite));
    RenderLines(Fold(sec, entries, |entries|, StepOf(overwrite)).value.0);
  }

  /** When no line outside the group carries an entry's key, the file
      `add` returns ends with exactly one line break. (Moving the file's
      last line into the group can leave an empty last line.) */
  lemma AddEndsWithOneLineBreak(content: string, entries: seq<(ArrayKey, string)>, groupName: string, overwrite: bool)
    requires EOL !in groupName && PlainEntries(entries)
    requires OpenGroup(content, groupName).Ok?
    requires var sec := OpenGroup(content, groupName).value;
      Untouched(sec.before, entries) && Untouched(sec.after, entries)
    ensures WithEnv(content, entries, groupName, overwrite).Ok?
    ensures var r := WithEnv(content, entries, groupName, overwrite).value;
      |r| >= 2 && r[|r| - 1] == EOL && r[|r| - 2] != EOL
  {
    var sec := OpenGroup(content, groupName).value;
    OpenedLastLine(content, groupName);
    StepOfLineSafe(overwrite);
    StepOfOutsideSafe(overwrite);
    RenderedEndsOnce(sec, entries, StepOf(overwrite));
    WithEnvRender(content, entries, groupName, overwrite);
  }

  lemma RenderedEndsOnce(sec: Sections, entries: seq<(ArrayKey, string)>, step: EntryStep)
    requires PlainEntries(entries) && Untouched(sec.before, entries) && Untouched(sec.after, entries)
    requires LineSafe(step) && OutsideSafe(step)
    requires sec.after != []
    requires var last := sec.after[|sec.after| - 1]; last != [] && last[|last| - 1] != EOL
    ensures Fold(sec, entries, |entries|, step).Ok?
    ensures var r := Render(Fold(sec, entries, |entries|, step).value.0);
      |r| >= 2 && r[|r| - 1] == EOL && r[|r| - 2] != EOL
  {
    FoldLines(sec, entries, |entries|, step);
    FoldOutside(sec, entries, |entries|, step);
    RenderEndsOnce(Fold(sec, entries, |entries|, step).value.0);
  }

  /** The file `add` returns renders the sections after the last entry. */
  lemma WithEnvRender(content: string, entries: seq<(ArrayKey, string)>, groupName: string, overwrite: bool)
    requires OpenGroup(content, groupName).Ok?
    requires Fold(OpenGroup(content, groupName).value, entries, |entries|, StepOf(overwrite)).Ok?
    ensures WithEnv(content, entries, groupName, overwrite)
      == Ok(Render(Fold(OpenGroup(content, groupName).value, entries, |entries|, StepOf(overwrite)).value.0))
  {
  }

  /** Removing a group that `add` has just created, for keys no line of the
      file carries, leaves the right-trimmed file followed by the blank
      line `add` put before the group and the final line break. */
  lemma RemoveAfterCreate(content: string, entries: seq<(ArrayKey, string)>, groupName: string, overwrite: bool)
    requires EOL !in groupName && '=' !in groupName
    requires Markers(groupName).0 !in ContentLines(content)
    requires Markers(groupName).1 !in ContentLines(content)
    requires PlainEntries(entries) && Untouched(ContentLines(content), entries)
    ensures WithEnv(content, entries, groupName, overwrite).Ok?
    ensures Remove(WithEnv(content, entries, groupName, overwrite).value, groupName)
      == Ok(RTrim(content, PhpSpaces) + [EOL, EOL])
  {
    var lines := ContentLines(content);
    var (start, end) := Markers(groupName);
    var sec := OpenGroup(content, groupName).value;
    assert sec == Sections(lines + ["", start], [], [end]);
    StepOfLineSafe(overwrite);
    StepOfOutsideSafe(overwrite);
    StepOfGroupSafe(overwrite);
    var group := CreatedGroup(lines, entries, groupName, StepOf(overwrite));
    AddLines(content, entries, groupName, overwrite);
    var out := WithEnv(content, entries, groupName, overwrite).value;
    assert Split(out, EOL) == lines + ["", start] + group + [end, ""];
    RemoveAppendedGroup(out, lines, group, groupName, "env");
    JoinContentLines(content);
  }

  /** Without a well-placed file `add` is not idempotent: on a file that
      holds only the end sentinel, the first call appends a fresh group
      after it, and the second cuts at the stray end sentinel and writes
      both sentinels again. */
  lemma EndOnlyNotIdempotent(groupName: string, overwrite: bool)
    requires ValidGroupName(groupName)
    ensures var (start, end) := Markers(groupName);
      var once := Join([end, "", start, end, ""], [EOL]);
      var twice := Join([end, "", start, end, "", start, end, ""], [EOL]);
      && WithEnv(Join([end], [EOL]), [], groupName, overwrite) == Ok(once)
      && WithEnv(once, [], groupName, overwrite) == Ok(twice)
      && once != twice
  {
    EndOnlyGrows(groupName);
  }

  /** Without a valid group name `add` is not idempotent: a fresh group
      whose name ends in blank space is written, but the second call
      right-trims the end sentinel away and fails. */
  lemma TrailingSpaceNameNotIdempotent(content: string, entries: seq<(ArrayKey, string)>, groupName: string, overwrite: bool)
    requires EOL !in groupName && '=' !in groupName
    requires groupName != [] && groupName[|groupName| - 1] in PhpSpaces
    requires Markers(groupName).0 !in ContentLines(content)
    requires Markers(groupName).1 !in ContentLines(content)
    requires PlainEntries(entries) && Untouched(ContentLines(content), entries)
    ensures WithEnv(content, entries, groupName, overwrite).Ok?
    ensures WithEnv(WithEnv(content, entries, groupName, overwrite).value, entries, groupName, overwrite).Err?
  {
    var lines := ContentLines(content);
    var (start, end) := Markers(groupName);
    var sec := OpenGroup(content, groupName).value;
    assert sec == Sections(lines + ["", start], [], [end]);
    StepOfLineSafe(overwrite);
    StepOfOutsideSafe(overwrite);
    StepOfGroupSafe(overwrite);
    var group := CreatedGroup(lines, entries, groupName, StepOf(overwrite));
    var final := Sections(lines + ["", start], group, [end]);
    AddLines(content, entries, groupName, overwrite);
    WithEnvRender(content, entries, groupName, overwrite);
    RenderLines(final);
    assert start in final.before;
    TrailingBlankEndLost(final, groupName);
  }

  /** Removing does not undo `add` once `add` has moved a line into the
      group: the file's `KEY=` line, relocated into the new group by
      `add`, goes away with the group, and only a line break is left. */
  lemma RemoveAfterRelocationLosesLine(groupName: string, key: string, value: string, line: string)
    requires EOL !in groupName && '=' !in groupName
    requires StartsWith(line, Upper(key) + "=") && EOL !in line
    requires line[|line| - 1] !in PhpSpaces
    ensures var (start, end) := Markers(groupName);
      var content := Join([start, end, "", line], [EOL]);
      && WithEnv(content, [(Str(key), value)], groupName, false).Ok?
      && Remove(WithEnv(content, [(Str(key), value)], groupName, false).value, groupName) == Ok([EOL])
  {
    var (start, end) := Markers(groupName);
    RelocatedLastLine(groupName, key, value, line);
    assert '=' in line by {
      assert line[|Upper(key)|] == '=';
    }
    assert '=' !in end;
    RemoveFive(groupName, line);
  }

  lemma RemoveFive(groupName: string, line: string)
    requires EOL !in groupName && EOL !in line && line != Markers(groupName).1
    ensures var (start, end) := Markers(groupName);
      Remove(Join([start, line, end, "", ""], [EOL]), groupName) == Ok([EOL])
  {
    var (start, end) := Markers(groupName);
    var all := [start, line, end, "", ""];
    FiveLines(all, line, groupName);
    FiveIndexes(all, line, groupName);
    assert Kept(all, 0, 2) == ["", ""];
    assert Join(["", ""], [EOL]) == [EOL] by {
      assert ["", ""][1..] == [""];
    }
    var r := Remove(Join(all, [EOL]), groupName);
    assert r.Ok? && Split(r.value, EOL) == ["", ""];
    JoinSplit(r.value, EOL);
  }

  lemma FiveLines(all: seq<string>, line: string, groupName: string)
    requires EOL !in groupName && EOL !in line
    requires all == [Markers(groupName).0, line, Markers(groupName).1, "", ""]
    ensures Split(Join(all, [EOL]), EOL) == all
  {
    assert forall i :: 0 <= i < |all| ==> EOL !in all[i] by {
      forall i | 0 <= i < |all| ensures EOL !in all[i] {
        if i == 1 {
          assert all[i] == line;
        }
      }
    }
    SplitJoin(all, EOL);
  }

  lemma FiveIndexes(all: seq<string>, line: string, groupName: string)
    requires line != Markers(groupName).1
    requires all == [Markers(groupName).0, line, Markers(groupName).1, "", ""]
    ensures IndexOf(all, Markers(groupName).0) == Some(0)
    ensures IndexOf(all, Markers(groupName).1) == Some(2)
  {
    FirstIndexAt(all, Markers(groupName).0, 0);
    assert all[..2] == [Markers(groupName).0, line];
    FirstIndexAt(all, Markers(groupName).1, 2);
  }

  /** The group `add` fills after appending fresh sentinels to lines that
      carry no entry's key: the lines around it stay, and none of its
      lines is the end sentinel. */
  lemma CreatedGroup(lines: seq<string>, entries: seq<(ArrayKey, string)>, groupName: string, step: EntryStep)
    returns (group: seq<string>)
    requires '=' !in groupName
    requires PlainEntries(entries) && Untouched(lines, entries)
    requires LineSafe(step) && OutsideSafe(step) && GroupSafe(step)
    ensures var (start, end) := Markers(groupName);
      var sec := Sections(lines + ["", start], [], [end]);
      && Fold(sec, entries, |entries|, step).Ok?
      && Fold(sec, entries, |entries|, step).value.0 == Sections(lines + ["", start], group, [end])
      && end !in group
  {
    var (start, end) := Markers(groupName);
    var sec := Sections(lines + ["", start], [], [end]);
    SentinelsUntouched(lines, entries, groupName);
    FoldLines(sec, entries, |entries|, step);
    FoldOutside(sec, entries, |entries|, step);
    FoldGroup(sec, entries, |entries|, step);
    group := Fold(sec, entries, |entries|, step).value.0.group;
    assert '=' !in end;
  }

  /** Sentinels of a name without `=` carry no entry's key. */
  lemma SentinelsUntouched(lines: seq<string>, entries: seq<(ArrayKey, string)>, groupName: string)
    requires '=' !in groupName && Untouched(lines, entries)
    ensures Untouched(lines + ["", Markers(groupName).0], entries)
    ensures Untouched([Markers(groupName).1], entries)
  {
    var (start, end) := Markers(groupName);
    forall i | 0 <= i < |entries| && entries[i].0.Str?
      ensures !StartsWith("", Upper(entries[i].0.s) + "=")
      ensures !StartsWith(start, Upper(entries[i].0.s) + "=")
      ensures !StartsWith(end, Upper(entries[i].0.s) + "=")
    {
      var search := Upper(entries[i].0.s) + "=";
      EqualsFree(start, search);
      EqualsFree(end, search);
    }
    var before := lines + ["", start];
    forall i, j | 0 <= i < |entries| && 0 <= j < |before| && entries[i].0.Str?
      ensures !StartsWith(before[j], Upper(entries[i].0.s) + "=")
    {
      if j < |lines| {
        assert before[j] == lines[j];
      }
    }
  }

  /** A line without `=` does not start with a key and `=`. */
  lemma EqualsFree(line: string, search: string)
    requires '=' !in line && search != [] && search[|search| - 1] == '='
    ensures !StartsWith(line, search)
  {
    if |search| <= |line| {
      assert line[|search| - 1] != search[|search| - 1];
    }
  }

  /** A step that only appends to the group (no overwrite). */
  ghost predicate GrowSafe(step: EntryStep) {
    forall sec: Sections, key: string, value: string :: sec.group <= step(sec, key, value).0.group
  }

  /** A step after which the group has a line for the key. */
  ghost predicate KeySafe(step: EntryStep) {
    forall sec, key, value :: AnyStartsWith(step(sec, key, value).0.group, Upper(key) + "=")
  }

  /** A step that changes nothing and adds nothing when the group has a
      line for the key and no line outside it has one. */
  ghost predicate IdleSafe(step: EntryStep) {
    forall sec: Sections, key: string, value: string ::
      AnyStartsWith(sec.group, Upper(key) + "=") &&
      !AnyStartsWith(sec.before, Upper(key) + "=") && !AnyStartsWith(sec.after, Upper(key) + "=") ==>
        step(sec, key, value) == (sec, false)
  }

  /** Without overwrite, a step appends to the group, leaves a line for
      its key there, and is idle when the group already has one. */
  lemma StepOfKeepSafe()
    ensures GrowSafe(StepOf(false)) && KeySafe(StepOf(false)) && IdleSafe(StepOf(false))
  {
    forall sec: Sections, key: string, value: string
      ensures sec.group <= StepOf(false)(sec, key, value).0.group
      ensures AnyStartsWith(StepOf(false)(sec, key, value).0.group, Upper(key) + "=")
    {
      StepKeepGroup(sec, key, value);
    }
    forall sec: Sections, key: string, value: string |
      AnyStartsWith(sec.group, Upper(key) + "=") &&
      !AnyStartsWith(sec.before, Upper(key) + "=") && !AnyStartsWith(sec.after, Upper(key) + "=")
      ensures StepOf(false)(sec, key, value) == (sec, false)
    {
      StepIdle(sec, key, value);
    }
  }

  lemma StepKeepGroup(sec: Sections, key: string, value: string)
    ensures var next := Step(sec, key, value, false).0;
      sec.group <= next.group && AnyStartsWith(next.group, Upper(key) + "=")
  {
    UpperIdempotent(key);
    var search := Upper(key) + "=";
    var grown := sec.group + Keep(sec.before, search, true) + Keep(sec.after, search, true);
    EnvLineShape(key, value);
    var line := CreateEnvLine(key, value);
    assert (grown + [line])[|grown|] == line;
    assert sec.group <= grown + [line] by {
      assert (grown + [line])[..|sec.group|] == sec.group;
    }
  }

  lemma StepIdle(sec: Sections, key: string, value: string)
    requires AnyStartsWith(sec.group, Upper(key) + "=")
    requires !AnyStartsWith(sec.before, Upper(key) + "=") && !AnyStartsWith(sec.after, Upper(key) + "=")
    ensures Step(sec, key, value, false) == (sec, false)
  {
    UpperIdempotent(key);
    var search := Upper(key) + "=";
    KeepAny(sec.before, search);
    KeepAny(sec.after, search);
    KeepNone(sec.before, search);
    KeepNone(sec.after, search);
    assert sec.group + Keep(sec.before, search, true) + Keep(sec.after, search, true) == sec.group;
  }

  /** A prefix with a line for the key gives the whole sequence one. */
  lemma AnyInPrefix(xs: seq<string>, ys: seq<string>, prefix: string)
    requires xs <= ys && AnyStartsWith(xs, prefix)
    ensures AnyStartsWith(ys, prefix)
  {
    var i :| 0 <= i < |xs| && StartsWith(xs[i], prefix);
    assert ys[i] == xs[i];
  }

  /** After a fold of appending steps, the group has a line for the key
      of each entry folded. */
  lemma {:induction false} FoldPresent(sec: Sections, entries: seq<(ArrayKey, string)>, n: nat, step: EntryStep, i: nat)
    requires i < n <= |entries| && PlainEntries(entries) && GrowSafe(step) && KeySafe(step)
    ensures Fold(sec, entries, n, step).Ok?
    ensures AnyStartsWith(Fold(sec, entries, n, step).value.0.group, Upper(entries[i].0.s) + "=")
    decreases n
  {
    var done := Fold(sec, entries, n - 1, step).value;
    FoldNext(sec, entries, n - 1, step, done);
    if i < n - 1 {
      FoldPresent(sec, entries, n - 1, step, i);
      var next := Fold(sec, entries, n, step).value.0;
      AnyInPrefix(done.0.group, next.group, Upper(entries[i].0.s) + "=");
    }
  }

  /** Folding entries whose keys the group has, and no line outside it
      has, changes nothing and skips every entry. */
  lemma {:induction false} FoldIdle(sec: Sections, entries: seq<(ArrayKey, string)>, n: nat, step: EntryStep)
    requires n <= |entries| && PlainEntries(entries) && IdleSafe(step)
    requires Untouched(sec.before, entries) && Untouched(sec.after, entries)
    requires forall i :: 0 <= i < |entries| ==> AnyStartsWith(sec.group, Upper(entries[i].0.s) + "=")
    ensures Fold(sec, entries, n, step) == Ok((sec, 0, n))
    decreases n
  {
    if n > 0 {
      FoldIdle(sec, entries, n - 1, step);
      assert entries[n - 1].0.Str?;
      var key := entries[n - 1].0.s;
      assert AnyStartsWith(sec.group, Upper(key) + "=");
      assert !AnyStartsWith(sec.before, Upper(key) + "=");
      assert !AnyStartsWith(sec.after, Upper(key) + "=");
      assert step(sec, key, entries[n - 1].1) == (sec, false);
      FoldNext(sec, entries, n - 1, step, (sec, 0, n - 1));
    }
  }

  /** The fold keeps an opened group findable again. */
  lemma FoldReopenable(sec: Sections, entries: seq<(ArrayKey, string)>, groupName: string, step: EntryStep)
    requires '=' !in groupName && Reopenable(sec, groupName)
    requires PlainEntries(entries) && Untouched(sec.before, entries) && Untouched(sec.after, entries)
    requires LineSafe(step) && OutsideSafe(step) && GroupSafe(step)
    ensures Fold(sec, entries, |entries|, step).Ok?
    ensures Reopenable(Fold(sec, entries, |entries|, step).value.0, groupName)
  {
    FoldLines(sec, entries, |entries|, step);
    FoldOutside(sec, entries, |entries|, step);
    FoldGroup(sec, entries, |entries|, step);
    var final := Fold(sec, entries, |entries|, step).value.0;
    GroupLinesSingle(sec, final, groupName);
    assert final == sec.(group := final.group);
    ReopenableGroup(sec, final.group, groupName);
  }

  /** Group lines that came from the file or hold `=` are single lines
      other than the end sentinel. */
  lemma GroupLinesSingle(sec: Sections, final: Sections, groupName: string)
    requires '=' !in groupName && Reopenable(sec, groupName)
    requires forall l :: l in AllLines(final) ==> l in AllLines(sec) || ('=' in l && EOL !in l)
    requires forall l :: l in final.group ==> l in sec.group || '=' in l
    ensures forall l :: l in final.group ==> EOL !in l && l != Markers(groupName).1
  {
    var end := Markers(groupName).1;
    assert '=' !in end;
    forall l | l in final.group
      ensures EOL !in l && l != end
    {
      assert l in AllLines(final);
      if l in AllLines(sec) {
        assert l in sec.before + sec.group + sec.after;
      }
    }
  }

  /** Another group of single lines other than the end sentinel keeps
      sections findable again. */
  lemma ReopenableGroup(sec: Sections, group: seq<string>, groupName: string)
    requires Reopenable(sec, groupName)
    requires forall l :: l in group ==> EOL !in l && l != Markers(groupName).1
    ensures Reopenable(sec.(group := group), groupName)
  {
    forall l | l in sec.before + group + sec.after
      ensures EOL !in l
    {
      if l !in group {
        assert l in sec.before + sec.group + sec.after;
      }
    }
  }

  /** `add` without overwrite is idempotent when no line outside the group
      carries an entry's key: a second call skips every entry and returns
      its input. */
  lemma AddIdempotent(content: string, entries: seq<(ArrayKey, string)>, groupName: string)
    requires ValidGroupName(groupName) && '=' !in groupName && WellPlaced(content, groupName)
    requires PlainEntries(entries)
    requires OpenGroup(content, groupName).Ok?
    requires var sec := OpenGroup(content, groupName).value;
      Untouched(sec.before, entries) && Untouched(sec.after, entries)
    ensures WithEnv(content, entries, groupName, false).Ok?
    ensures var once := WithEnv(content, entries, groupName, false).value;
      && WithEnv(once, entries, groupName, false) == Ok(once)
      && Fold(OpenGroup(once, groupName).value, entries, |entries|, StepOf(false)).value.1 == 0
  {
    var sec := OpenGroup(content, groupName).value;
    var step := StepOf(false);
    OpenedReopenable(content, groupName);
    StepOfLineSafe(false);
    StepOfOutsideSafe(false);
    StepOfGroupSafe(false);
    StepOfKeepSafe();
    var final := Reapplied(sec, entries, groupName, step);
    WithEnvRender(content, entries, groupName, false);
    ReopenRendered(final, groupName);
    WithEnvRender(Render(final), entries, groupName, false);
  }

  /** The sections after the fold, and a second fold on them is idle. */
  lemma Reapplied(sec: Sections, entries: seq<(ArrayKey, string)>, groupName: string, step: EntryStep)
    returns (final: Sections)
    requires '=' !in groupName && Reopenable(sec, groupName)
    requires PlainEntries(entries) && Untouched(sec.before, entries) && Untouched(sec.after, entries)
    requires LineSafe(step) && OutsideSafe(step) && GroupSafe(step)
    requires GrowSafe(step) && KeySafe(step) && IdleSafe(step)
    ensures Fold(sec, entries, |entries|, step).Ok?
    ensures final == Fold(sec, entries, |entries|, step).value.0
    ensures Reopenable(final, groupName)
    ensures Fold(final, entries, |entries|, step) == Ok((final, 0, |entries|))
  {
    FoldReopenable(sec, entries, groupName, step);
    FoldOutside(sec, entries, |entries|, step);
    final := Fold(sec, entries, |entries|, step).value.0;
    forall i | 0 <= i < |entries|
      ensures AnyStartsWith(final.group, Upper(entries[i].0.s) + "=")
    {
      FoldPresent(sec, entries, |entries|, step, i);
    }
    FoldIdle(final, entries, |entries|, step);
  }

  /** Moving the file's last line into the group leaves an empty last
      line behind. A file holding an empty group, a blank line and then a
      line for the key gets that line moved into the group, and `add`
      returns a file ending with two line breaks. */
  lemma RelocatedLastLine(groupName: string, key: string, value: string, line: string)
    requires EOL !in groupName && '=' !in groupName
    requires StartsWith(line, Upper(key) + "=") && EOL !in line
    requires line[|line| - 1] !in PhpSpaces
    ensures var (start, end) := Markers(groupName);
      WithEnv(Join([start, end, "", line], [EOL]), [(Str(key), value)], groupName, false)
        == Ok(Join([start, line, end, "", ""], [EOL]))
  {
    var (start, end) := Markers(groupName);
    var content := Join([start, end, "", line], [EOL]);
    RelocatedOpen(groupName, line);
    RelocatedFold(groupName, key, value, line);
    WithEnvRender(content, [(Str(key), value)], groupName, false);
    RenderFive(start, line, end);
  }

  lemma RelocatedFold(groupName: string, key: string, value: string, line: string)
    requires '=' !in groupName && StartsWith(line, Upper(key) + "=")
    ensures var (start, end) := Markers(groupName);
      Fold(Sections([start], [], [end, "", line]), [(Str(key), value)], 1, StepOf(false))
        == Ok((Sections([start], [line], [end, ""]), 0, 1))
  {
    var (start, end) := Markers(groupName);
    var sec := Sections([start], [], [end, "", line]);
    var entries := [(Str(key), value)];
    RelocatedStep(groupName, key, value, line);
    StepOfApplies(false, sec, key, value);
    FoldNext(sec, entries, 0, StepOf(false), (sec, 0, 0));
  }

  lemma RenderFive(start: string, line: string, end: string)
    ensures Render(Sections([start], [line], [end, ""])) == Join([start, line, end, "", ""], [EOL])
  {
    var all := [start] + [line] + [end, ""];
    assert all == [start, line, end, ""];
    assert all + [""] == [start, line, end, "", ""];
  }

  lemma RelocatedOpen(groupName: string, line: string)
    requires EOL !in groupName && EOL !in line && line != [] && line[|line| - 1] !in PhpSpaces
    ensures var (start, end) := Markers(groupName);
      OpenGroup(Join([start, end, "", line], [EOL]), groupName) == Ok(Sections([start], [], [end, "", line]))
  {
    var (start, end) := Markers(groupName);
    var lines := [start, end, "", line];
    LineAtEndRead(lines, groupName, line);
    FirstIndexAt(lines, start, 0);
    assert lines[..1] == [start];
    FirstIndexAt(lines, end, 1);
    OpenGroupAt(Join(lines, [EOL]), groupName, 0, 1);
    assert Cut(lines, 0, 1) == Sections([start], [], [end, "", line]);
  }

  lemma LineAtEndRead(lines: seq<string>, groupName: string, line: string)
    requires EOL !in groupName && EOL !in line && line != [] && line[|line| - 1] !in PhpSpaces
    requires lines == [Markers(groupName).0, Markers(groupName).1, "", line]
    ensures ContentLines(Join(lines, [EOL])) == lines
  {
    assert forall i :: 0 <= i < |lines| ==> EOL !in lines[i] by {
      forall i | 0 <= i < |lines| ensures EOL !in lines[i] {
        if i == 3 {
          assert lines[i] == line;
        }
      }
    }
    ContentLinesOfJoin(lines);
  }

  /** The entry's step on the opened sample: the line for the key moves
      into the group, where it counts as present. */
  lemma RelocatedStep(groupName: string, key: string, value: string, line: string)
    requires '=' !in groupName && StartsWith(line, Upper(key) + "=")
    ensures var (start, end) := Markers(groupName);
      Step(Sections([start], [], [end, "", line]), key, value, false)
        == (Sections([start], [line], [end, ""]), false)
  {
    var (start, end) := Markers(groupName);
    var search := Upper(key) + "=";
    assert '=' !in start && '=' !in end;
    EqualsFree(start, search);
    EqualsFree(end, search);
    EqualsFree("", search);
    KeepAll([start], search, false);
    KeepAll([end, ""], search, false);
    KeepAll([line], search, true);
    KeepConcat([end, ""], [line], search, true);
    KeepConcat([end, ""], [line], search, false);
    assert [end, ""] + [line] == [end, "", line];
    assert [] + Keep([start], search, true) + Keep([end, "", line], search, true) == [line];
    assert AnyStartsWith([line], search);
  }

  /** Moves the lines starting with `search` from `lines` to the end of
      `group`: one of the two relocation loops of `add`. */
  method Relocate(lines: seq<string>, search: string, group: seq<string>) returns (rest: seq<string>, grown: seq<string>)
    ensures rest == Keep(lines, search, false)
    ensures grown == group + Keep(lines, search, true)
  {
    rest, grown := [], group;
    for j := 0 to |lines|
      invariant rest == Keep(lines[..j], search, false)
      invariant grown == group + Keep(lines[..j], search, true)
    {
      assert lines[..j + 1][..j] == lines[..j];
      if StartsWith(lines[j], search) {
        grown := grown + [lines[j]];
      } else {
        rest := rest + [lines[j]];
      }
    }
    assert lines[..|lines|] == lines;
  }

  /** The group loop of `add`: with overwrite, drops the lines starting
      with `search`; without, reports whether there is one. */
  method ScanGroup(group: seq<string>, search: string, overwrite: bool) returns (kept: seq<string>, found: bool)
    ensures overwrite ==> kept == Keep(group, search, false) && !found
    ensures !overwrite ==> kept == group && (found <==> AnyStartsWith(group, search))
  {
    kept, found := [], false;
    for j := 0 to |group|
      invariant overwrite ==> kept == Keep(group[..j], search, false) && !found
      invariant !overwrite ==> kept == group[..j] && (found <==> AnyStartsWith(group[..j], search))
    {
      assert group[..j + 1][..j] == group[..j];
      if StartsWith(group[j], search) {
        if !overwrite {
          found := true;
          kept := kept + [group[j]];
        }
      } else {
        kept := kept + [group[j]];
      }
      assert !overwrite ==> (AnyStartsWith(group[..j + 1], search) <==> AnyStartsWith(group[..j], search) || StartsWith(group[j], search));
    }
    assert group[..|group|] == group;
  }

  /** The body of the entry loop of `add`: relocation, the group loop, and
      the append. */
  method AddEntry(state: Sections, key: string, value: string, overwrite: bool) returns (next: Sections, isNew: bool)
    ensures (next, isNew) == Step(state, key, value, overwrite)
  {
    var k := Upper(key);
    var search := k + "=";
    var before, group := Relocate(state.before, search, state.group);
    var after;
    after, group := Relocate(state.after, search, group);
    var found;
    group, found := ScanGroup(group, search, overwrite);
    isNew := !found;
    if isNew {
      group := group + [CreateEnvLine(k, value)];
    }
    next := Sections(before, group, after);
  }

  /** One turn of the entry loop of `add`: the key upper-cased (which
      fails on a key PHP stores as an integer), then the entry added. */
  method AddTurn(done: (Sections, nat, nat), entry: (ArrayKey, string), overwrite: bool)
    returns (r: Result<(Sections, nat, nat)>)
    ensures r == Next(Ok(done), entry, StepOf(overwrite))
  {
    if entry.0.Int? {
      return Err(IntKeyFailure);
    }
    var next, isNew := AddEntry(done.0, entry.0.s, entry.1, overwrite);
    if isNew {
      r := Ok((next, done.1 + 1, done.2));
    } else {
      r := Ok((next, done.1, done.2 + 1));
    }
  }

  /** The entry loop of `add` over the opened group: the sections and the
      counts after every entry, or the failure on the first integer key. */
  method AddAll(sec: Sections, entries: seq<(ArrayKey, string)>, overwrite: bool) returns (r: Result<(Sections, nat, nat)>)
    ensures r == Fold(sec, entries, |entries|, StepOf(overwrite))
  {
    var done := (sec, 0, 0);
    for i := 0 to |entries|
      invariant Fold(sec, entries, i, StepOf(overwrite)) == Ok(done)
    {
      r := AddTurn(done, entries[i], overwrite);
      if r.Err? {
        assert entries[i].0.Int?;
        return;
      }
      done := r.value;
    }
    r := Ok(done);
  }

  /** `EnvModifier::add`. */
  method Add(content: string, entries: seq<(ArrayKey, string)>, groupName: string, overwrite: bool)
    returns (r: Result<Patched>)
    ensures r.Err? <==> WithEnv(content, entries, groupName, overwrite).Err?
    ensures r.Err? ==> r.failure == WithEnv(content, entries, groupName, overwrite).failure
    ensures r.Ok? ==> r.value.content == WithEnv(content, entries, groupName, overwrite).value
    ensures r.Ok? ==> r.value.added + r.value.skipped == |entries|
  {
    var sec :- OpenGroup(content, groupName);
    var done :- AddAll(sec, entries, overwrite);
    r := Ok(Patched(Render(done.0), done.1, done.2));
  }

  /** `EnvModifier::remove`: the file without the group and its sentinels,
      or the failure naming `env`. */
  function Remove(content: string, groupName: string): Result<string> {
    RemoveGroup(content, groupName, "env")
  }
}
