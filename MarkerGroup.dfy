/** The marker-delimited line group shared by the `.gitignore` and `.env`
    patchers: a block of lines between `###> name` and `###< name`.
    Both patchers locate, cut out and glue back the block identically;
    only what they do to the block's own lines differs. */
module MarkerGroup {
  import opened Outcomes
  import opened Text

  const GroupStart: string := "###> "
  const GroupEnd: string := "###< "

  /** The failure messages, up to the group name (and, for `remove`, the
      file's label). The `.env` patcher reports a missing end sentinel
      with the `.gitignore` wording too. */
  const MissingEnd: string := "Group start found but group end not found in .gitignore for group: "
  const MissingGroup: string := "no valid group start and end found in "

  /** What `add` hands back: the new file and the counts it reports. */
  datatype Patched = Patched(content: string, added: nat, skipped: nat)

  /** `getGroupStartAndStopStrings`: the start and end sentinel lines. */
  function Markers(groupName: string): (m: (string, string))
    ensures m.0 != m.1
    ensures |m.0| == |GroupStart| + |groupName| && |m.1| == |GroupEnd| + |groupName|
    ensures m.0[|GroupStart|..] == groupName && m.1[|GroupEnd|..] == groupName
    ensures EOL !in groupName ==> EOL !in m.0 && EOL !in m.1
  {
    var m := (GroupStart + groupName, GroupEnd + groupName);
    assert m.0[3] != m.1[3];
    m
  }

  lemma MarkersInjective(a: string, b: string)
    requires Markers(a).0 == Markers(b).0 || Markers(a).1 == Markers(b).1
    ensures a == b
  {
  }

  /** The file cut in three: everything up to and including the start
      sentinel, the group's own lines, and everything from the end
      sentinel on. */
  datatype Sections = Sections(before: seq<string>, group: seq<string>, after: seq<string>)

  /** `array_slice($xs, $offset, $length)`: a negative length stops that
      many elements before the end. */
  function ArraySlice<T>(xs: seq<T>, offset: nat, length: int): (r: seq<T>)
    requires offset <= |xs|
    ensures r <= xs[offset..]
    ensures 0 <= length ==> |r| == if offset + length <= |xs| then length else |xs| - offset
  {
    if length >= 0 then xs[offset..if offset + length <= |xs| then offset + length else |xs|]
    else xs[offset..if offset <= |xs| + length then |xs| + length else offset]
  }

  /** The three slices taken at start index `s` and end index `e`. */
  function Cut(lines: seq<string>, s: nat, e: nat): (sec: Sections)
    requires s < |lines| && e <= |lines|
    ensures sec.before == lines[..s + 1] && sec.after == lines[e..]
    ensures s < e ==> sec.group == lines[s + 1..e]
  {
    Sections(lines[..s + 1], ArraySlice(lines, s + 1, e - s - 1), lines[e..])
  }

  /** The lines of a file after `rtrim` and `explode(PHP_EOL, …)`. */
  function ContentLines(content: string): (lines: seq<string>)
    ensures |lines| >= 1 && forall i :: 0 <= i < |lines| ==> EOL !in lines[i]
  {
    Split(RTrim(content, PhpSpaces), EOL)
  }

  /** The opening half of `add` in both patchers: find the sentinels, or
      append a blank line and an empty group at the end of the file, and
      cut the file around the group. Fails when the start sentinel is
      present but the end sentinel is not. */
  function OpenGroup(content: string, groupName: string): (r: Result<Sections>)
    ensures var lines := ContentLines(content);
      var start := Markers(groupName).0;
      var end := Markers(groupName).1;
      && (r.Err? <==> start in lines && end !in lines)
      && (start !in lines ==> r == Ok(Sections(lines + ["", start], [], [end])))
      && (start in lines && end in lines ==>
            var s := IndexOf(lines, start).value;
            var e := IndexOf(lines, end).value;
            r.Ok? && r.value.before == lines[..s + 1] && r.value.after == lines[e..]
            && (s < e ==> r.value.group == lines[s + 1..e]))
  {
    var lines := ContentLines(content);
    var (start, end) := Markers(groupName);
    var s := IndexOf(lines, start);
    var e := IndexOf(lines, end);
    if s.None? then
      var grown := lines + ["", start, end];
      var groupStart := |grown| - 2;
      assert grown[..groupStart + 1] == lines + ["", start];
      assert grown[groupStart + 1..] == [end];
      assert grown[groupStart + 1..groupStart + 1] == [];
      Ok(Cut(grown, groupStart, groupStart + 1))
    else if e.None? then
      Err(Runtime(MissingEnd + groupName))
    else
      Ok(Cut(lines, s.value, e.value))
  }

  /** The closing half of `add`: glue the three parts back together with a
      final empty line, so that a non-empty file ends with a line break. */
  function Render(sec: Sections): (r: string)
    ensures sec.before + sec.group + sec.after != [] ==> r != [] && r[|r| - 1] == EOL
  {
    var lines := sec.before + sec.group + sec.after;
    if lines == [] then Join([""], [EOL])
    else
      JoinSnoc(lines, "", EOL);
      Join(lines + [""], [EOL])
  }

  /** The rendered file's lines are the three parts and a final empty line
      exactly when no part holds a line break of its own. */
  lemma RenderLines(sec: Sections)
    ensures Split(Render(sec), EOL) == sec.before + sec.group + sec.after + [""] <==>
      forall l :: l in sec.before + sec.group + sec.after ==> EOL !in l
  {
    var lines := sec.before + sec.group + sec.after;
    if forall l :: l in lines ==> EOL !in l {
      assert forall i :: 0 <= i < |lines + [""]| ==> EOL !in (lines + [""])[i] by {
        forall i | 0 <= i < |lines + [""]| ensures EOL !in (lines + [""])[i] {
          if i < |lines| {
            assert (lines + [""])[i] in lines;
          }
        }
      }
      SplitJoin(lines + [""], EOL);
    } else {
      var l :| l in lines && EOL in l;
      var i :| 0 <= i < |lines| && lines[i] == l;
      assert (lines + [""])[i] == l;
    }
  }

  /** The lines kept by `remove`: those before index `s` and those after
      index `e`. */
  function Kept(lines: seq<string>, s: nat, e: nat): (kept: seq<string>)
    requires s <= |lines| && e < |lines|
    ensures |kept| == s + |lines| - e - 1
    ensures forall i :: 0 <= i < s ==> kept[i] == lines[i]
    ensures forall i :: s <= i < |kept| ==> kept[i] == lines[e + 1 + i - s]
  {
    lines[..s] + lines[e + 1..]
  }

  /** `remove` in both patchers: the lines before the first start sentinel
      followed by those after the first end sentinel. No trimming. */
  function RemoveGroup(content: string, groupName: string, fileLabel: string): (r: Result<string>)
    ensures var lines := Split(content, EOL);
      var start := Markers(groupName).0;
      var end := Markers(groupName).1;
      && (r.Err? <==> start !in lines || end !in lines)
      && (r.Err? ==>
            r.failure == Runtime(MissingGroup + fileLabel + " for group: " + groupName))
      && (r.Ok? ==>
            var kept := Kept(lines, IndexOf(lines, start).value, IndexOf(lines, end).value);
            (kept == [] ==> r.value == "") && (kept != [] ==> Split(r.value, EOL) == kept))
  {
    var lines := Split(content, EOL);
    var (start, end) := Markers(groupName);
    var s := IndexOf(lines, start);
    var e := IndexOf(lines, end);
    if s.None? || e.None? then
      Err(Runtime(MissingGroup + fileLabel + " for group: " + groupName))
    else
      var kept := Kept(lines, s.value, e.value);
      if kept == [] then
        Ok("")
      else
        SplitJoin(kept, EOL);
        Ok(Join(kept, [EOL]))
  }

  /** `remove` on a file of one-line elements whose sentinels first occur
      at `s` and `e` writes back exactly the kept lines. */
  lemma RemoveGroupAt(lines: seq<string>, groupName: string, fileLabel: string, s: nat, e: nat)
    requires forall i :: 0 <= i < |lines| ==> EOL !in lines[i]
    requires IndexOf(lines, Markers(groupName).0) == Some(s)
    requires IndexOf(lines, Markers(groupName).1) == Some(e)
    requires s <= |lines| && e < |lines| && Kept(lines, s, e) != []
    ensures RemoveGroup(Join(lines, [EOL]), groupName, fileLabel) == Ok(Join(Kept(lines, s, e), [EOL]))
  {
    SplitJoin(lines, EOL);
    var r := RemoveGroup(Join(lines, [EOL]), groupName, fileLabel).value;
    JoinSplit(r, EOL);
  }

  /** A group name the patchers can find again after writing it: one
      line, not blank at its end (the next `add` right-trims the file). */
  predicate ValidGroupName(groupName: string) {
    groupName != [] && groupName[|groupName| - 1] !in PhpSpaces && EOL !in groupName
  }

  /** Either the file has neither sentinel, or it has both and the first
      end sentinel comes after the first start sentinel. */
  predicate WellPlaced(content: string, groupName: string) {
    var lines := ContentLines(content);
    var start := Markers(groupName).0;
    var end := Markers(groupName).1;
    match IndexOf(lines, start)
    case None => end !in lines
    case Some(s) => end in lines && end !in lines[..s]
  }

  /** The shape `OpenGroup` gives a well-placed group, and the one an
      `add` must keep for a second `add` to find the same group again. */
  ghost predicate Reopenable(sec: Sections, groupName: string) {
    var start := Markers(groupName).0;
    var end := Markers(groupName).1;
    && sec.before != [] && sec.before[|sec.before| - 1] == start
    && start !in sec.before[..|sec.before| - 1]
    && end !in sec.before && end !in sec.group
    && sec.after != [] && sec.after[0] == end
    && (forall l :: l in sec.before + sec.group + sec.after ==> EOL !in l)
    && var last := sec.after[|sec.after| - 1];
       last != [] && last[|last| - 1] !in PhpSpaces
  }

  lemma FirstIndexAt<T>(xs: seq<T>, x: T, i: nat)
    requires i < |xs| && xs[i] == x && x !in xs[..i]
    ensures IndexOf(xs, x) == Some(i)
  {
    NotInPrefix(xs, x, i);
  }

  /** One-line elements whose last one does not end in blank space read
      back, once joined, as themselves. */
  lemma ContentLinesOfJoin(lines: seq<string>)
    requires lines != [] && forall i :: 0 <= i < |lines| ==> EOL !in lines[i]
    requires var last := lines[|lines| - 1]; last != [] && last[|last| - 1] !in PhpSpaces
    ensures ContentLines(Join(lines, [EOL])) == lines
  {
    var joined := Join(lines, [EOL]);
    JoinEndsLikeLast(lines, EOL);
    assert joined[|joined| - 1] !in PhpSpaces;
    assert RTrim(joined, PhpSpaces) == joined;
    SplitJoin(lines, EOL);
  }

  /** The line list a rendered file reads back as, when no part holds a
      line break and the last line does not end in blank space. */
  lemma RenderedContentLines(sec: Sections)
    requires sec.before != [] && sec.after != []
    requires forall l :: l in sec.before + sec.group + sec.after ==> EOL !in l
    requires var last := sec.after[|sec.after| - 1]; last != [] && last[|last| - 1] !in PhpSpaces
    ensures ContentLines(Render(sec)) == sec.before + sec.group + sec.after
  {
    var lines := sec.before + sec.group + sec.after;
    JoinSnoc(lines, "", EOL);
    var joined := Join(lines, [EOL]);
    assert Render(sec) == joined + [EOL];
    RTrimSnoc(joined, EOL, PhpSpaces);
    assert lines[|lines| - 1] == sec.after[|sec.after| - 1];
    assert forall i :: 0 <= i < |lines| ==> EOL !in lines[i] by {
      forall i | 0 <= i < |lines| ensures EOL !in lines[i] {
        assert lines[i] in lines;
      }
    }
    ContentLinesOfJoin(lines);
  }

  /** An opened file's last part ends with the file's last line, or is
      the end sentinel of a group appended at the end. */
  lemma OpenedTail(content: string, groupName: string)
    requires OpenGroup(content, groupName).Ok?
    ensures var sec := OpenGroup(content, groupName).value;
      var lines := ContentLines(content);
      && sec.after != []
      && (Markers(groupName).0 in lines ==> sec.after[|sec.after| - 1] == lines[|lines| - 1])
      && (Markers(groupName).0 !in lines ==> sec.after == [Markers(groupName).1])
  {
    var lines := ContentLines(content);
    var (start, end) := Markers(groupName);
    if start in lines {
      var e := IndexOf(lines, end).value;
      assert OpenGroup(content, groupName).value.after == lines[e..];
    }
  }

  /** The last line of an opened file is not empty and does not end in a
      line break. */
  lemma OpenedLastLine(content: string, groupName: string)
    requires OpenGroup(content, groupName).Ok? && EOL !in groupName
    ensures var after := OpenGroup(content, groupName).value.after;
      after != [] && var last := after[|after| - 1]; last != [] && last[|last| - 1] != EOL
  {
    var lines := ContentLines(content);
    OpenedTail(content, groupName);
    if Markers(groupName).0 in lines {
      LastLineNotBlank(content, lines);
    }
  }

  /** Each part of an opened file is one line: a line of the file or a
      sentinel. */
  lemma OpenedSingleLines(content: string, groupName: string)
    requires OpenGroup(content, groupName).Ok? && EOL !in groupName
    ensures var sec := OpenGroup(content, groupName).value;
      forall l :: l in sec.before + sec.group + sec.after ==> EOL !in l
  {
    var lines := ContentLines(content);
    var (start, end) := Markers(groupName);
    var s := IndexOf(lines, start);
    var e := IndexOf(lines, end);
    if s.None? {
      var grown := lines + ["", start, end];
      assert forall i :: 0 <= i < |grown| ==> EOL !in grown[i] by {
        forall i | 0 <= i < |grown|
          ensures EOL !in grown[i]
        {
          if i < |lines| {
            assert grown[i] == lines[i];
          }
        }
      }
      CutSingleLines(grown, |grown| - 2, |grown| - 1);
    } else {
      CutSingleLines(lines, s.value, e.value);
    }
  }

  lemma CutSingleLines(lines: seq<string>, s: nat, e: nat)
    requires s < |lines| && e <= |lines|
    requires forall i :: 0 <= i < |lines| ==> EOL !in lines[i]
    ensures var sec := Cut(lines, s, e);
      forall l :: l in sec.before + sec.group + sec.after ==> EOL !in l
  {
    var sec := Cut(lines, s, e);
    forall l | l in sec.before
      ensures EOL !in l
    {
      var i :| 0 <= i < |sec.before| && sec.before[i] == l;
      assert l == lines[i];
    }
    forall l | l in sec.group
      ensures EOL !in l
    {
      var i :| 0 <= i < |sec.group| && sec.group[i] == l;
      assert l == lines[s + 1..][i] == lines[s + 1 + i];
    }
    forall l | l in sec.after
      ensures EOL !in l
    {
      var i :| 0 <= i < |sec.after| && sec.after[i] == l;
      assert l == lines[e + i];
    }
  }

  /** A well-placed group in a file opens into reopenable sections. */
  lemma OpenedReopenable(content: string, groupName: string)
    requires ValidGroupName(groupName) && WellPlaced(content, groupName)
    ensures OpenGroup(content, groupName).Ok?
    ensures Reopenable(OpenGroup(content, groupName).value, groupName)
  {
    var lines := ContentLines(content);
    var (start, end) := Markers(groupName);
    if start in lines {
      OpenedExisting(content, groupName);
    } else {
      OpenedFresh(content, groupName);
    }
  }

  /** A file without the start sentinel opens into reopenable sections:
      its lines, a blank line and the start sentinel; nothing; the end
      sentinel. */
  lemma OpenedFresh(content: string, groupName: string)
    requires ValidGroupName(groupName)
    requires Markers(groupName).0 !in ContentLines(content)
    requires Markers(groupName).1 !in ContentLines(content)
    ensures OpenGroup(content, groupName).Ok?
    ensures Reopenable(OpenGroup(content, groupName).value, groupName)
  {
    var lines := ContentLines(content);
    var (start, end) := Markers(groupName);
    var sec := OpenGroup(content, groupName).value;
    assert sec == Sections(lines + ["", start], [], [end]);
    assert end != "" && end != start;
    assert end !in sec.before;
    assert sec.before[..|sec.before| - 1] == lines + [""];
    assert forall l :: l in sec.before + sec.group + sec.after ==> EOL !in l by {
      assert sec.before + sec.group + sec.after == lines + ["", start, end];
      forall l | l in sec.before + sec.group + sec.after ensures EOL !in l {
        if l in lines {
          var i :| 0 <= i < |lines| && lines[i] == l;
        }
      }
    }
    assert end[|end| - 1] == groupName[|groupName| - 1];
  }

  lemma OpenedExisting(content: string, groupName: string)
    requires ValidGroupName(groupName) && WellPlaced(content, groupName)
    requires Markers(groupName).0 in ContentLines(content)
    ensures OpenGroup(content, groupName).Ok?
    ensures Reopenable(OpenGroup(content, groupName).value, groupName)
  {
    var lines := ContentLines(content);
    LastLineNotBlank(content, lines);
    var (start, end) := Markers(groupName);
    var s := IndexOf(lines, start).value;
    var e := IndexOf(lines, end).value;
    NotInPrefix(lines, end, s);
    CutReopenable(lines, groupName, s, e);
  }

  /** Cutting a one-line-per-element file at the first start sentinel and
      a later first end sentinel gives reopenable sections. */
  lemma CutReopenable(lines: seq<string>, groupName: string, s: nat, e: nat)
    requires s < e < |lines|
    requires lines[s] == Markers(groupName).0 && Markers(groupName).0 !in lines[..s]
    requires lines[e] == Markers(groupName).1 && Markers(groupName).1 !in lines[..e]
    requires forall i :: 0 <= i < |lines| ==> EOL !in lines[i]
    requires var last := lines[|lines| - 1]; last != [] && last[|last| - 1] !in PhpSpaces
    ensures Reopenable(Cut(lines, s, e), groupName)
  {
    var (start, end) := Markers(groupName);
    var sec := Cut(lines, s, e);
    assert sec.before == lines[..s] + [start];
    assert sec.group == lines[..e][s + 1..];
    NotInPrefix(lines, end, e);
    assert end !in sec.before;
    assert end !in sec.group;
    assert sec.before + sec.group + sec.after == lines;
    assert forall l :: l in lines ==> EOL !in l by {
      forall l | l in lines ensures EOL !in l {
        var i :| 0 <= i < |lines| && lines[i] == l;
      }
    }
    assert sec.after[|sec.after| - 1] == lines[|lines| - 1];
  }

  /** A file with a non-blank line ends, after `rtrim`, in a non-blank
      last line. */
  lemma LastLineNotBlank(content: string, lines: seq<string>)
    requires lines == ContentLines(content) && lines != [""]
    ensures var last := lines[|lines| - 1]; last != [] && last[|last| - 1] !in PhpSpaces
  {
    var trimmed := RTrim(content, PhpSpaces);
    assert trimmed != [];
    assert trimmed[|trimmed| - 1] !in PhpSpaces;
    assert EOL in PhpSpaces;
    SplitLastPart(trimmed, EOL);
  }

  /** A rendered file whose last line is not empty and does not end in a
      line break ends with exactly one line break. */
  lemma RenderEndsOnce(sec: Sections)
    requires sec.after != []
    requires var last := sec.after[|sec.after| - 1]; last != [] && last[|last| - 1] != EOL
    ensures var r := Render(sec); |r| >= 2 && r[|r| - 1] == EOL && r[|r| - 2] != EOL
  {
    var parts := sec.before + sec.group + sec.after;
    assert parts[|parts| - 1] == sec.after[|sec.after| - 1];
    JoinSnoc(parts, "", EOL);
    JoinEndsLikeLast(parts, EOL);
  }

  /** Removing a group from a file whose lines are `pre`, a blank line,
      the group and a final empty line leaves `pre` and two empty lines. */
  lemma RemoveAppendedGroup(r: string, pre: seq<string>, mid: seq<string>, groupName: string, fileLabel: string)
    requires var (start, end) := Markers(groupName);
      && Split(r, EOL) == pre + ["", start] + mid + [end, ""]
      && start !in pre && end !in pre && end !in mid
    ensures RemoveGroup(r, groupName, fileLabel) == Ok(Join(pre + ["", ""], [EOL]))
  {
    AppendedIndexes(pre, mid, groupName);
    var out := RemoveGroup(r, groupName, fileLabel);
    assert Split(out.value, EOL) == pre + ["", ""];
    JoinSplit(out.value, EOL);
  }

  lemma AppendedIndexes(pre: seq<string>, mid: seq<string>, groupName: string)
    requires var (start, end) := Markers(groupName);
      start !in pre && end !in pre && end !in mid
    ensures var (start, end) := Markers(groupName);
      var all := pre + ["", start] + mid + [end, ""];
      && IndexOf(all, start) == Some(|pre| + 1)
      && IndexOf(all, end) == Some(|pre| + 2 + |mid|)
      && Kept(all, |pre| + 1, |pre| + 2 + |mid|) == pre + ["", ""]
  {
    var (start, end) := Markers(groupName);
    var all := pre + ["", start] + mid + [end, ""];
    var s := |pre| + 1;
    var e := |pre| + 2 + |mid|;
    assert all[..s] == pre + [""];
    FirstIndexAt(all, start, s);
    assert all[..e] == pre + ["", start] + mid;
    FirstIndexAt(all, end, e);
    assert Kept(all, s, e) == pre + ["", ""];
  }

  /** The lines of a file, glued back with two more line breaks. */
  lemma JoinContentLines(content: string)
    ensures Join(ContentLines(content) + ["", ""], [EOL]) == RTrim(content, PhpSpaces) + [EOL, EOL]
  {
    var lines := ContentLines(content);
    JoinSnoc(lines, "", EOL);
    JoinSnoc(lines + [""], "", EOL);
    assert lines + [""] + [""] == lines + ["", ""];
    JoinSplit(RTrim(content, PhpSpaces), EOL);
  }

  /** A group name ending in blank space cannot be found again: the next
      `add` right-trims the file, which shortens the end sentinel on its
      last line, so only the start sentinel is left and opening fails. */
  lemma TrailingBlankEndLost(sec: Sections, groupName: string)
    requires EOL !in groupName && groupName != [] && groupName[|groupName| - 1] in PhpSpaces
    requires Markers(groupName).0 in sec.before
    requires Markers(groupName).1 !in sec.before + sec.group
    requires sec.after == [Markers(groupName).1]
    requires forall l :: l in sec.before + sec.group ==> EOL !in l
    ensures OpenGroup(Render(sec), groupName).Err?
  {
    var (start, end) := Markers(groupName);
    var front := sec.before + sec.group;
    assert (sec.before + sec.group + sec.after) + [""] == front + [end, ""];
    var trimmed := RTrim(end, PhpSpaces);
    assert end[0] == '#';
    assert trimmed != end by {
      assert end[|end| - 1] == groupName[|groupName| - 1];
    }
    assert forall i :: 0 <= i < |front| ==> EOL !in front[i] by {
      forall i | 0 <= i < |front| ensures EOL !in front[i] {
        assert front[i] in front;
      }
    }
    ContentLinesTrimLast(front, end);
    assert start in front;
  }

  /** Reading back lines whose last one ends in blank space: that line
      comes back right-trimmed. */
  lemma ContentLinesTrimLast(front: seq<string>, last: string)
    requires front != [] && forall i :: 0 <= i < |front| ==> EOL !in front[i]
    requires EOL !in last && RTrim(last, PhpSpaces) != []
    ensures ContentLines(Join(front + [last, ""], [EOL])) == front + [RTrim(last, PhpSpaces)]
  {
    TrimmedJoin(front, last);
    SplitTrimmed(front, RTrim(last, PhpSpaces), last);
  }

  lemma TrimmedJoin(front: seq<string>, last: string)
    requires front != [] && RTrim(last, PhpSpaces) != []
    ensures RTrim(Join(front + [last, ""], [EOL]), PhpSpaces) == Join(front + [RTrim(last, PhpSpaces)], [EOL])
  {
    var head := Join(front, [EOL]) + [EOL];
    JoinTwoMore(front, last);
    RTrimSnoc(head + last, EOL, PhpSpaces);
    RTrimKeeps(head, last, PhpSpaces);
    JoinSnoc(front, RTrim(last, PhpSpaces), EOL);
  }

  lemma JoinTwoMore(front: seq<string>, last: string)
    requires front != []
    ensures Join(front + [last, ""], [EOL]) == (Join(front, [EOL]) + [EOL] + last) + [EOL]
  {
    JoinSnoc(front, last, EOL);
    JoinSnoc(front + [last], "", EOL);
    assert front + [last] + [""] == front + [last, ""];
  }

  lemma SplitTrimmed(front: seq<string>, trimmed: string, last: string)
    requires front != [] && forall i :: 0 <= i < |front| ==> EOL !in front[i]
    requires EOL !in last && trimmed <= last
    ensures Split(Join(front + [trimmed], [EOL]), EOL) == front + [trimmed]
  {
    assert forall i :: 0 <= i < |front + [trimmed]| ==> EOL !in (front + [trimmed])[i] by {
      forall i | 0 <= i < |front + [trimmed]| ensures EOL !in (front + [trimmed])[i] {
        if i < |front| {
          assert (front + [trimmed])[i] == front[i];
        }
      }
    }
    SplitJoin(front + [trimmed], EOL);
  }

  /** Rendering reopenable sections and opening the result again gives
      the same sections back: the file round-trips through `add`. */
  lemma ReopenRendered(sec: Sections, groupName: string)
    requires Reopenable(sec, groupName)
    ensures OpenGroup(Render(sec), groupName) == Ok(sec)
  {
    var (start, end) := Markers(groupName);
    var lines := sec.before + sec.group + sec.after;
    RenderedContentLines(sec);
    var b := |sec.before|;
    var g := |sec.group|;
    assert lines[..b - 1] == sec.before[..b - 1];
    FirstIndexAt(lines, start, b - 1);
    assert lines[..b + g] == sec.before + sec.group;
    FirstIndexAt(lines, end, b + g);
    CutOfParts(sec);
  }

  lemma CutOfParts(sec: Sections)
    requires sec.before != []
    ensures var b := |sec.before|;
      Cut(sec.before + sec.group + sec.after, b - 1, b + |sec.group|) == sec
  {
    var lines := sec.before + sec.group + sec.after;
    var b := |sec.before|;
    var g := |sec.group|;
    assert lines[..b] == sec.before;
    assert lines[b..b + g] == sec.group;
    assert lines[b + g..] == sec.after;
  }

  /** Opening a file whose sentinels are both present cuts its lines at
      their first occurrences. */
  lemma OpenGroupAt(content: string, groupName: string, s: nat, e: nat)
    requires var lines := ContentLines(content);
      && IndexOf(lines, Markers(groupName).0) == Some(s)
      && IndexOf(lines, Markers(groupName).1) == Some(e)
    ensures OpenGroup(content, groupName) == Ok(Cut(ContentLines(content), s, e))
  {
  }

  /** The source's behaviour when the end sentinel comes first: the
      negative-length `array_slice` makes the cut overlap. For a file
      whose first line is the end sentinel and whose second is the start
      sentinel, the part before the group is those two lines and the part
      after it is the whole file again, so gluing the parts back repeats
      both sentinels. */
  lemma EndBeforeStartOverlaps(groupName: string, rest: seq<string>)
    requires EOL !in groupName
    requires rest != [] && forall i :: 0 <= i < |rest| ==> EOL !in rest[i]
    requires var last := rest[|rest| - 1]; last != [] && last[|last| - 1] !in PhpSpaces
    ensures var (start, end) := Markers(groupName);
      var lines := [end, start] + rest;
      OpenGroup(Join(lines, [EOL]), groupName) == Ok(Sections([end, start], ArraySlice(lines, 2, -2), lines))
  {
    var (start, end) := Markers(groupName);
    var lines := [end, start] + rest;
    assert forall i :: 0 <= i < |lines| ==> EOL !in lines[i] by {
      forall i | 0 <= i < |lines| ensures EOL !in lines[i] {
        if i >= 2 {
          assert lines[i] == rest[i - 2];
        }
      }
    }
    assert lines[|lines| - 1] == rest[|rest| - 1];
    ContentLinesOfJoin(lines);
    FirstIndexAt(lines, start, 1);
    FirstIndexAt(lines, end, 0);
    OpenGroupAt(Join(lines, [EOL]), groupName, 1, 0);
  }
  /** A file holding the end sentinel but no start sentinel. The first
      `add` finds no start sentinel and appends a fresh group after the
      stray end sentinel. The second finds the stray end sentinel first,
      so the negative-length `array_slice` repeats both sentinels. */
  lemma EndOnlyGrows(groupName: string)
    requires ValidGroupName(groupName)
    ensures var (start, end) := Markers(groupName);
      && OpenGroup(Join([end], [EOL]), groupName) == Ok(Sections([end, "", start], [], [end]))
      && Render(Sections([end, "", start], [], [end])) == Join([end, "", start, end, ""], [EOL])
      && OpenGroup(Join([end, "", start, end, ""], [EOL]), groupName)
           == Ok(Sections([end, "", start], [], [end, "", start, end]))
      && Render(Sections([end, "", start], [], [end, "", start, end]))
           == Join([end, "", start, end, "", start, end, ""], [EOL])
      && Join([end, "", start, end, ""], [EOL]) != Join([end, "", start, end, "", start, end, ""], [EOL])
  {
    EndOnlyOpens(groupName);
    EndOnlyDiffers(groupName);
    EndOnlyRenders(groupName);
    EndOnlyReopens(groupName);
  }

  /** The two files the two `add` calls write. */
  lemma EndOnlyRenders(groupName: string)
    ensures var (start, end) := Markers(groupName);
      && Render(Sections([end, "", start], [], [end])) == Join([end, "", start, end, ""], [EOL])
      && Render(Sections([end, "", start], [], [end, "", start, end]))
           == Join([end, "", start, end, "", start, end, ""], [EOL])
  {
    var (start, end) := Markers(groupName);
    RenderParts(Sections([end, "", start], [], [end]));
    assert [end, "", start] + [] + [end] + [""] == [end, "", start, end, ""];
    RenderParts(Sections([end, "", start], [], [end, "", start, end]));
    assert [end, "", start] + [] + [end, "", start, end] + [""] == [end, "", start, end, "", start, end, ""];
  }

  /** The second file is longer than the first: their lines differ. */
  lemma EndOnlyDiffers(groupName: string)
    requires EOL !in groupName
    ensures var (start, end) := Markers(groupName);
      Join([end, "", start, end, ""], [EOL]) != Join([end, "", start, end, "", start, end, ""], [EOL])
  {
    var (start, end) := Markers(groupName);
    var once := [end, "", start, end, ""];
    var twice := [end, "", start, end, "", start, end, ""];
    assert forall i :: 0 <= i < |once| ==> EOL !in once[i];
    assert forall i :: 0 <= i < |twice| ==> EOL !in twice[i];
    SplitJoin(once, EOL);
    SplitJoin(twice, EOL);
  }

  /** The file glued back is the join of its parts and a final empty line. */
  lemma RenderParts(sec: Sections)
    ensures Render(sec) == Join(sec.before + sec.group + sec.after + [""], [EOL])
  {
    if sec.before + sec.group + sec.after == [] {
      assert sec.before + sec.group + sec.after + [""] == [""];
    }
  }

  /** A file that is only the end sentinel opens onto a fresh group. */
  lemma EndOnlyOpens(groupName: string)
    requires ValidGroupName(groupName)
    ensures var (start, end) := Markers(groupName);
      OpenGroup(Join([end], [EOL]), groupName) == Ok(Sections([end, "", start], [], [end]))
  {
    var (start, end) := Markers(groupName);
    ContentLinesOfJoin([end]);
    assert ContentLines(Join([end], [EOL])) == [end];
    assert start !in [end];
    assert [end] + ["", start] == [end, "", start];
  }

  /** The file the first `add` writes opens with the stray end sentinel
      as the end of the group. */
  lemma EndOnlyReopens(groupName: string)
    requires ValidGroupName(groupName)
    ensures var (start, end) := Markers(groupName);
      OpenGroup(Join([end, "", start, end, ""], [EOL]), groupName)
        == Ok(Sections([end, "", start], [], [end, "", start, end]))
  {
    var (start, end) := Markers(groupName);
    var lines := [end, "", start, end];
    ContentLinesTrimLast([end, "", start], end);
    assert [end, "", start] + [end, ""] == [end, "", start, end, ""];
    assert RTrim(end, PhpSpaces) == end;
    assert [end, "", start] + [end] == lines;
    FirstIndexAt(lines, start, 2);
    FirstIndexAt(lines, end, 0);
    OpenGroupAt(Join([end, "", start, end, ""], [EOL]), groupName, 2, 0);
    assert ArraySlice(lines, 3, -3) == [];
    assert lines[..3] == [end, "", start];
  }
}
