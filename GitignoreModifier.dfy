/** The `.gitignore` patcher: keeps a group of ignore patterns between the
    `###> name` and `###< name` lines, adding patterns the group does not
    hold yet, or dropping the whole group. */
module GitignoreModifier {
  import opened Outcomes
  import opened Text
  import opened MarkerGroup

  /** The group's lines after each entry it does not hold yet has been
      appended, in the order given and at most once (an entry added
      earlier in the same call counts as held). */
  function AppendMissing(group: seq<string>, entries: seq<string>): (r: seq<string>)
    ensures group <= r
    ensures forall x :: x in entries ==> x in r
    ensures forall j :: |group| <= j < |r| ==> r[j] in entries && r[j] !in r[..j]
    decreases |entries|
  {
    if entries == [] then group
    else
      var init := entries[..|entries| - 1];
      var x := entries[|entries| - 1];
      var r := AppendMissing(group, init);
      assert entries == init + [x];
      if x in r then r
      else
        assert (r + [x])[..|r|] == r;
        r + [x]
  }

  /** An independent description of what is appended: the entries, in
      the order given, that the group does not hold and that do not
      occur earlier in the list. */
  function Missing(group: seq<string>, entries: seq<string>): seq<string>
    decreases |entries|
  {
    if entries == [] then []
    else
      var init := entries[..|entries| - 1];
      var x := entries[|entries| - 1];
      Missing(group, init) + (if x !in group && x !in init then [x] else [])
  }

  /** The group grows by exactly the missing entries, each at its first
      occurrence and in the order given: a `!pattern` listed after the
      pattern it negates stays after it. */
  lemma {:induction false} AppendMissingOrder(group: seq<string>, entries: seq<string>)
    ensures AppendMissing(group, entries) == group + Missing(group, entries)
    decreases |entries|
  {
    if entries != [] {
      var init := entries[..|entries| - 1];
      var x := entries[|entries| - 1];
      AppendMissingOrder(group, init);
      var r := AppendMissing(group, init);
      AppendMissingHolds(group, init, x);
      assert AppendMissing(group, entries) == if x in r then r else r + [x];
      assert Missing(group, entries) == Missing(group, init) + (if x !in group && x !in init then [x] else []);
    }
  }

  /** After the call the group holds exactly what it held and the entries. */
  lemma AppendMissingHolds(group: seq<string>, entries: seq<string>, x: string)
    ensures x in AppendMissing(group, entries) <==> x in group || x in entries
  {
    var r := AppendMissing(group, entries);
    if x in r && x !in group {
      var j :| 0 <= j < |r| && r[j] == x;
      assert j >= |group|;
    }
  }

  /** The file `add` returns: the group opened, the missing entries
      appended just before the end sentinel, the file glued back. */
  function WithEntries(content: string, entries: seq<string>, groupName: string): Result<string> {
    var sec :- OpenGroup(content, groupName);
    Ok(Render(sec.(group := AppendMissing(sec.group, entries))))
  }

  /** `GitignoreModifier::add`. A single pattern is the one-element list. */
  method Add(content: string, entries: seq<string>, groupName: string) returns (r: Result<Patched>)
    ensures r.Err? <==> WithEntries(content, entries, groupName).Err?
    ensures r.Err? ==> r.failure == WithEntries(content, entries, groupName).failure
    ensures r.Ok? ==> r.value.content == WithEntries(content, entries, groupName).value
    ensures r.Ok? ==> r.value.added + r.value.skipped == |entries|
    ensures r.Ok? ==> var group := OpenGroup(content, groupName).value.group;
      r.value.added == |AppendMissing(group, entries)| - |group|
  {
    var sec :- OpenGroup(content, groupName);
    var group := sec.group;
    var added, skipped := 0, 0;
    for i := 0 to |entries|
      invariant group == AppendMissing(sec.group, entries[..i])
      invariant added == |group| - |sec.group| && added + skipped == i
    {
      assert entries[..i + 1][..i] == entries[..i];
      if entries[i] !in group {
        group := group + [entries[i]];
        added := added + 1;
      } else {
        skipped := skipped + 1;
      }
    }
    assert entries[..|entries|] == entries;
    r := Ok(Patched(Render(sec.(group := group)), added, skipped));
  }

  /** `GitignoreModifier::remove`: the file without the group and its
      sentinels, or the failure naming `.gitignore`. */
  function Remove(content: string, groupName: string): Result<string> {
    RemoveGroup(content, groupName, ".gitignore")
  }

  /** Appending entries the group already holds changes nothing. */
  lemma {:induction false} AppendMissingHeld(group: seq<string>, entries: seq<string>)
    requires forall x :: x in entries ==> x in group
    ensures AppendMissing(group, entries) == group
    decreases |entries|
  {
    if entries != [] {
      AppendMissingHeld(group, entries[..|entries| - 1]);
    }
  }

  /** Line by line, the result of `add` is the lines up to the start
      sentinel, the old group followed by the new entries, the lines from
      the end sentinel on, and a final empty line. */
  lemma AddLines(content: string, entries: seq<string>, groupName: string)
    requires OpenGroup(content, groupName).Ok?
    requires EOL !in groupName
    requires forall x :: x in entries ==> EOL !in x
    ensures var sec := OpenGroup(content, groupName).value;
      Split(WithEntries(content, entries, groupName).value, EOL)
        == sec.before + AppendMissing(sec.group, entries) + sec.after + [""]
  {
    var sec := OpenGroup(content, groupName).value;
    OpenedSingleLines(content, groupName);
    var grown := sec.(group := AppendMissing(sec.group, entries));
    assert forall l :: l in grown.before + grown.group + grown.after ==> EOL !in l by {
      forall l | l in grown.before + grown.group + grown.after
        ensures EOL !in l
      {
        if l !in sec.before + sec.group + sec.after {
          var i :| 0 <= i < |grown.group| && grown.group[i] == l;
          assert i >= |sec.group|;
        }
      }
    }
    RenderLines(grown);
  }

  /** Entries without line breaks that are not the end sentinel keep an
      opened group findable again. */
  lemma GrownReopenable(sec: Sections, entries: seq<string>, groupName: string)
    requires Reopenable(sec, groupName)
    requires forall x :: x in entries ==> EOL !in x && x != Markers(groupName).1
    ensures Reopenable(sec.(group := AppendMissing(sec.group, entries)), groupName)
  {
    var grown := sec.(group := AppendMissing(sec.group, entries));
    forall l | l in grown.group
      ensures EOL !in l && l != Markers(groupName).1
    {
      var i :| 0 <= i < |grown.group| && grown.group[i] == l;
      if i < |sec.group| {
        assert l == sec.group[i];
        assert l in sec.before + sec.group + sec.after;
      }
    }
  }

  /** Without a well-placed file `add` is not idempotent: on a file that
      holds only the end sentinel, the first call appends a fresh group
      after it, and the second cuts at the stray end sentinel and writes
      both sentinels again. */
  lemma EndOnlyNotIdempotent(groupName: string)
    requires ValidGroupName(groupName)
    ensures var (start, end) := Markers(groupName);
      var once := Join([end, "", start, end, ""], [EOL]);
      var twice := Join([end, "", start, end, "", start, end, ""], [EOL]);
      && WithEntries(Join([end], [EOL]), [], groupName) == Ok(once)
      && WithEntries(once, [], groupName) == Ok(twice)
      && once != twice
  {
    EndOnlyGrows(groupName);
  }

  /** `remove` after an `add` on a file holding only the end sentinel: it
      cuts from the new start sentinel back to the stray end sentinel, so
      both sentinels stay and a blank line is doubled. */
  lemma EndOnlyRemoveKeepsSentinels(groupName: string)
    requires ValidGroupName(groupName)
    ensures var (start, end) := Markers(groupName);
      Remove(Join([end, "", start, end, ""], [EOL]), groupName) == Ok(Join([end, "", "", start, end, ""], [EOL]))
  {
    var (start, end) := Markers(groupName);
    var lines := [end, "", start, end, ""];
    assert forall i :: 0 <= i < |lines| ==> EOL !in lines[i];
    FirstIndexAt(lines, start, 2);
    FirstIndexAt(lines, end, 0);
    assert Kept(lines, 2, 0) == [end, "", "", start, end, ""];
    RemoveGroupAt(lines, groupName, ".gitignore", 2, 0);
  }

  /** `remove` after an `add` whose entry is the end sentinel itself: the
      entry is the first end sentinel, so the cut stops there and the
      real end sentinel stays in the file. */
  lemma EndEntryRemoveKeepsSentinel(groupName: string)
    requires ValidGroupName(groupName)
    ensures var (start, end) := Markers(groupName);
      && WithEntries("a", [end], groupName) == Ok(Join(["a", "", start, end, end, ""], [EOL]))
      && Remove(Join(["a", "", start, end, end, ""], [EOL]), groupName) == Ok(Join(["a", "", end, ""], [EOL]))
  {
    EndEntryAdds(groupName);
    EndEntryRemoves(groupName);
  }

  /** `remove` on that file cuts at the entry. */
  lemma EndEntryRemoves(groupName: string)
    requires ValidGroupName(groupName)
    ensures var (start, end) := Markers(groupName);
      Remove(Join(["a", "", start, end, end, ""], [EOL]), groupName) == Ok(Join(["a", "", end, ""], [EOL]))
  {
    var (start, end) := Markers(groupName);
    var lines := ["a", "", start, end, end, ""];
    assert forall i :: 0 <= i < |lines| ==> EOL !in lines[i];
    FirstIndexAt(lines, start, 2);
    FirstIndexAt(lines, end, 3);
    assert Kept(lines, 2, 3) == ["a", "", end, ""];
    RemoveGroupAt(lines, groupName, ".gitignore", 2, 3);
  }

  /** The file `add` writes for the end sentinel as its one entry. */
  lemma EndEntryAdds(groupName: string)
    requires ValidGroupName(groupName)
    ensures var (start, end) := Markers(groupName);
      WithEntries("a", [end], groupName) == Ok(Join(["a", "", start, end, end, ""], [EOL]))
  {
    var (start, end) := Markers(groupName);
    var grown := Sections(["a", "", start], [end], [end]);
    assert WithEntries("a", [end], groupName) == Ok(Render(grown)) by {
      EndEntryOpens(groupName);
      assert AppendMissing([], [end]) == [end];
    }
    assert Render(grown) == Join(["a", "", start, end, end, ""], [EOL]) by {
      RenderParts(grown);
      assert grown.before + grown.group + grown.after + [""] == ["a", "", start, end, end, ""];
    }
  }

  /** The file `"a"` holds no sentinel, so it opens onto a fresh group. */
  lemma EndEntryOpens(groupName: string)
    requires ValidGroupName(groupName)
    ensures var (start, end) := Markers(groupName);
      OpenGroup("a", groupName) == Ok(Sections(["a", "", start], [], [end]))
  {
    var (start, end) := Markers(groupName);
    assert RTrim("a", PhpSpaces) == "a";
    SplitFree("a", EOL);
    assert ContentLines("a") == ["a"];
    assert start !in ["a"];
    assert ["a"] + ["", start] == ["a", "", start];
  }

  /** Without a valid group name `add` is not idempotent: a fresh group
      whose name ends in blank space is written, but the second call
      finds the start sentinel without the (right-trimmed) end sentinel
      and fails. */
  lemma TrailingSpaceNameNotIdempotent(content: string, entries: seq<string>, groupName: string)
    requires EOL !in groupName && groupName != [] && groupName[|groupName| - 1] in PhpSpaces
    requires Markers(groupName).0 !in ContentLines(content)
    requires Markers(groupName).1 !in ContentLines(content)
    requires forall x :: x in entries ==> EOL !in x && x != Markers(groupName).1
    ensures WithEntries(content, entries, groupName).Ok?
    ensures WithEntries(WithEntries(content, entries, groupName).value, entries, groupName).Err?
  {
    var (start, end) := Markers(groupName);
    var lines := ContentLines(content);
    var sec := OpenGroup(content, groupName).value;
    assert sec == Sections(lines + ["", start], [], [end]);
    var grown := sec.(group := AppendMissing(sec.group, entries));
    assert WithEntries(content, entries, groupName) == Ok(Render(grown));
    forall l | l in grown.before + grown.group
      ensures EOL !in l && l != end
    {
      if l in grown.group {
        var i :| 0 <= i < |grown.group| && grown.group[i] == l;
      } else {
        assert l in lines || l == "" || l == start;
      }
    }
    assert start in grown.before;
    TrailingBlankEndLost(grown, groupName);
  }

  /** `add` is idempotent: a second call with the same entries finds every
      entry in the group, appends nothing, and returns its input. */
  lemma AddIdempotent(content: string, entries: seq<string>, groupName: string)
    requires ValidGroupName(groupName) && WellPlaced(content, groupName)
    requires forall x :: x in entries ==> EOL !in x && x != Markers(groupName).1
    ensures WithEntries(content, entries, groupName).Ok?
    ensures var once := WithEntries(content, entries, groupName).value;
      && WithEntries(once, entries, groupName) == Ok(once)
      && var sec := OpenGroup(once, groupName).value;
         AppendMissing(sec.group, entries) == sec.group
  {
    OpenedReopenable(content, groupName);
    var sec := OpenGroup(content, groupName).value;
    GrownReopenable(sec, entries, groupName);
    var grown := sec.(group := AppendMissing(sec.group, entries));
    ReopenRendered(grown, groupName);
    AppendMissingHeld(grown.group, entries);
  }

  /** The file `add` returns ends with exactly one line break: its last
      line is not empty and does not end in a line break. */
  lemma AddEndsWithOneLineBreak(content: string, entries: seq<string>, groupName: string)
    requires EOL !in groupName
    requires WithEntries(content, entries, groupName).Ok?
    ensures var r := WithEntries(content, entries, groupName).value;
      |r| >= 2 && r[|r| - 1] == EOL && r[|r| - 2] != EOL
  {
    var sec := OpenGroup(content, groupName).value;
    var grown := sec.(group := AppendMissing(sec.group, entries));
    assert WithEntries(content, entries, groupName) == Ok(Render(grown));
    OpenedLastLine(content, groupName);
    assert grown.after == sec.after;
    RenderEndsOnce(grown);
  }

  /** Removing a group that `add` has just created leaves the right-trimmed
      file followed by the blank line `add` put before the group and the
      final line break. */
  lemma RemoveAfterCreate(content: string, entries: seq<string>, groupName: string)
    requires EOL !in groupName
    requires Markers(groupName).0 !in ContentLines(content)
    requires Markers(groupName).1 !in ContentLines(content)
    requires forall x :: x in entries ==> EOL !in x && x != Markers(groupName).1
    ensures WithEntries(content, entries, groupName).Ok?
    ensures Remove(WithEntries(content, entries, groupName).value, groupName)
      == Ok(RTrim(content, PhpSpaces) + [EOL, EOL])
  {
    var lines := ContentLines(content);
    var (start, end) := Markers(groupName);
    var added := AppendMissing([], entries);
    var out := WithEntries(content, entries, groupName).value;
    AddLines(content, entries, groupName);
    assert Split(out, EOL) == lines + ["", start] + added + [end, ""];
    assert end !in added by {
      forall i | 0 <= i < |added|
        ensures added[i] != end
      {
        assert added[i] in entries;
      }
    }
    RemoveAppendedGroup(out, lines, added, groupName, ".gitignore");
    JoinContentLines(content);
  }
}
