/** The `config/bundles.php` patcher: registers a bundle class inside the
    `return [` … `];` array, one `Name::class => ['all' => true],` line per
    bundle, at a position chosen by `strcmp` order. */
module SymfonyModifier {
  import opened Outcomes
  import opened Text

  const ReturnOpen: string := "return ["
  const ReturnClose: string := "];"
  const BundleSuffix: string := "::class => ['all' => true],"

  /** The characters PCRE's `\s` matches outside UTF mode. */
  const PcreSpaces: set<char> := {' ', '\t', '\n', '\U{B}', '\U{C}', '\r'}

  /** What `class_exists` guarantees of a class name: not empty and free of
      white space (and so of line breaks). */
  predicate ClassName(name: string) {
    name != [] && forall i :: 0 <= i < |name| ==> name[i] !in PcreSpaces
  }

  /** The match of `^(\s*)`: the longest prefix made of white space. */
  function LeadingSpace(s: string): (r: string)
    ensures r <= s
    ensures forall i :: 0 <= i < |r| ==> r[i] in PcreSpaces
    ensures r == s || s[|r|] !in PcreSpaces
    decreases |s|
  {
    if s != [] && s[0] in PcreSpaces then [s[0]] + LeadingSpace(s[1..]) else ""
  }

  /** The indentation of the line after `return [`, or none when there is
      no such line. */
  function Indentation(lines: seq<string>, ret: nat): string {
    if ret + 1 < |lines| then LeadingSpace(lines[ret + 1]) else ""
  }

  function BundleLine(indent: string, name: string): string {
    indent + name + BundleSuffix
  }

  /** The first line in `lines[from..end]` that `strcmp` puts after `line`. */
  function FirstGreater(lines: seq<string>, from: nat, end: nat, line: string): (r: Option<nat>)
    requires end <= |lines|
    ensures r.None? <==> forall j :: from <= j < end ==> !Less(line, lines[j])
    ensures r.Some? ==> from <= r.value < end && Less(line, lines[r.value])
    ensures r.Some? ==> forall j :: from <= j < r.value ==> !Less(line, lines[j])
    decreases end - from
  {
    if from >= end then None
    else if Less(line, lines[from]) then Some(from)
    else FirstGreater(lines, from + 1, end, line)
  }

  /** Where the new line goes: before the first greater line of the block,
      or, when there is none, right after `return [`. */
  function InsertIndex(lines: seq<string>, ret: nat, end: nat, line: string): (k: nat)
    requires ret < |lines| && end <= |lines|
    ensures ret < k <= |lines|
    ensures (exists j :: ret < j < end && Less(line, lines[j])) ==>
      k < end && Less(line, lines[k]) && forall j :: ret < j < k ==> !Less(line, lines[j])
    ensures (forall j :: ret < j < end ==> !Less(line, lines[j])) ==> k == ret + 1
  {
    match FirstGreater(lines, ret + 1, end, line)
    case None => ret + 1
    case Some(k) => k
  }

  /** `array_splice($lines, $k, 0, $line)`. */
  function Inserted<T>(xs: seq<T>, k: nat, x: T): (r: seq<T>)
    requires k <= |xs|
    ensures |r| == |xs| + 1
    ensures forall i :: 0 <= i < |r| ==>
      r[i] == if i < k then xs[i] else if i == k then x else xs[i - 1]
  {
    xs[..k] + [x] + xs[k..]
  }

  const NotABundle: string := " does not implement the Symfony BundleInterface. This will not be added to bundles.php"

  /** `checkIfBundleClassIsValid`, with `class_exists` and the reflection
      test as the parameters `classExists` and `isBundle`. */
  function BundleCheck(name: string, classExists: bool, isBundle: bool): (r: Result<()>)
    ensures r.Ok? <==> classExists && isBundle
  {
    if !classExists then Err(Runtime("Bundle class " + name + " does not exist"))
    else if !isBundle then
      Err(Runtime("Bundle class " + name + NotABundle))
    else Ok(())
  }

  /** The positions of `return [` and `];`, or the failure naming the one
      that is missing. */
  function Locate(lines: seq<string>): (r: Result<(nat, nat)>)
    ensures r.Ok? <==> ReturnOpen in lines && ReturnClose in lines
    ensures r.Ok? ==> r.value.0 < |lines| && r.value.1 < |lines|
    ensures r.Ok? ==> Some(r.value.0) == IndexOf(lines, ReturnOpen) && Some(r.value.1) == IndexOf(lines, ReturnClose)
  {
    match (IndexOf(lines, ReturnOpen), IndexOf(lines, ReturnClose))
    case (None, _) => Err(Runtime("Could not find \"return [\" in bundles.php file"))
    case (_, None) => Err(Runtime("Could not find \"];\" in bundles.php file"))
    case (Some(ret), Some(end)) => Ok((ret, end))
  }

  /** The bundle line for `name` and the index `addToBundle` would insert
      it at, or the failure naming the missing line. */
  function Registration(lines: seq<string>, name: string): (r: Result<(string, nat)>)
    ensures r.Ok? <==> ReturnOpen in lines && ReturnClose in lines
    ensures r.Ok? ==> IndexOf(lines, ReturnOpen).value < r.value.1 <= |lines|
  {
    var (ret, end) :- Locate(lines);
    var line := BundleLine(Indentation(lines, ret), name);
    Ok((line, InsertIndex(lines, ret, end, line)))
  }

  /** The file `addToBundle` returns. */
  function BundleAdded(content: string, name: string, classExists: bool, isBundle: bool): (r: Result<string>)
    ensures r.Err? <==>
      (!classExists || !isBundle || ReturnOpen !in Split(content, EOL) || ReturnClose !in Split(content, EOL))
    ensures r.Ok? ==> var (line, _) := Registration(Split(content, EOL), name).value;
      line in Split(content, EOL) ==> r.value == content
  {
    var _ :- BundleCheck(name, classExists, isBundle);
    var lines := Split(content, EOL);
    var (line, k) :- Registration(lines, name);
    if line in lines then Ok(content)
    else Ok(Join(Inserted(lines, k, line), [EOL]))
  }

  /** The scan of `addToBundle` for the insertion point: the first line of
      the block that sorts after `line`, stopping there. */
  method FindInsertIndex(lines: seq<string>, ret: nat, end: nat, line: string) returns (insertIndex: nat)
    requires ret < |lines| && end <= |lines|
    ensures insertIndex == InsertIndex(lines, ret, end, line)
  {
    insertIndex := ret + 1;
    var i := ret + 1;
    while i < end
      invariant ret + 1 <= i && insertIndex == ret + 1
      invariant FirstGreater(lines, i, end, line) == FirstGreater(lines, ret + 1, end, line)
      decreases end - i
    {
      if Less(line, lines[i]) {
        insertIndex := i;
        break;
      }
      i := i + 1;
    }
  }

  /** `SymfonyModifier::addToBundle`. */
  method AddToBundle(content: string, name: string, classExists: bool, isBundle: bool) returns (r: Result<string>)
    ensures r == BundleAdded(content, name, classExists, isBundle)
  {
    var _ :- BundleCheck(name, classExists, isBundle);
    var lines := Split(content, EOL);
    var located :- Locate(lines);
    var (ret, end) := located;
    var line := BundleLine(Indentation(lines, ret), name);
    if line in lines {
      return Ok(content);
    }
    var insertIndex := FindInsertIndex(lines, ret, end, line);
    assert Registration(lines, name) == Ok((line, insertIndex));
    lines := lines[..insertIndex] + [line] + lines[insertIndex..];
    r := Ok(Join(lines, [EOL]));
  }

  /** An indentation followed by a name that starts with no white space is
      read back as that indentation. */
  lemma {:induction false} LeadingSpaceOf(indent: string, rest: string)
    requires forall i :: 0 <= i < |indent| ==> indent[i] in PcreSpaces
    requires rest == [] || rest[0] !in PcreSpaces
    ensures LeadingSpace(indent + rest) == indent
    decreases |indent|
  {
    if indent != [] {
      LeadingSpaceOf(indent[1..], rest);
      assert (indent + rest)[1..] == indent[1..] + rest;
    } else {
      assert indent + rest == rest;
    }
  }

  /** The bundle line of a class name holds no line break when the lines
      it takes its indentation from hold none. */
  lemma BundleLineSingle(lines: seq<string>, ret: nat, name: string)
    requires ClassName(name)
    requires forall i :: 0 <= i < |lines| ==> EOL !in lines[i]
    ensures EOL !in BundleLine(Indentation(lines, ret), name)
  {
    var indent := Indentation(lines, ret);
    var line := BundleLine(indent, name);
    forall i | 0 <= i < |line|
      ensures line[i] != EOL
    {
      if i < |indent| {
        assert line[i] == indent[i] == lines[ret + 1][i];
      } else if i < |indent| + |name| {
        assert line[i] == name[i - |indent|];
      } else {
        assert line[i] == BundleSuffix[i - |indent| - |name|];
      }
    }
  }

  lemma InsertedSingle(lines: seq<string>, k: nat, line: string)
    requires k <= |lines| && EOL !in line
    requires forall i :: 0 <= i < |lines| ==> EOL !in lines[i]
    ensures forall i :: 0 <= i < |lines| + 1 ==> EOL !in Inserted(lines, k, line)[i]
  {
  }

  /** On success, either the bundle line was already there and the file
      comes back as it was, or the new file's lines are the old ones with
      exactly the bundle line inserted, after `return [`. */
  lemma AddedLines(content: string, name: string)
    requires ClassName(name)
    requires BundleAdded(content, name, true, true).Ok?
    ensures var lines := Split(content, EOL);
      var (line, k) := Registration(lines, name).value;
      var out := BundleAdded(content, name, true, true).value;
      && IndexOf(lines, ReturnOpen).value < k
      && (line in lines ==> out == content)
      && (line !in lines ==> Split(out, EOL) == lines[..k] + [line] + lines[k..])
  {
    var lines := Split(content, EOL);
    var (line, k) := Registration(lines, name).value;
    if line !in lines {
      BundleLineSingle(lines, IndexOf(lines, ReturnOpen).value, name);
      InsertedSingle(lines, k, line);
      SplitJoin(Inserted(lines, k, line), EOL);
    }
  }

  lemma FirstIndex<T>(xs: seq<T>, x: T, i: nat)
    requires i < |xs| && xs[i] == x
    requires forall j :: 0 <= j < i ==> xs[j] != x
    ensures IndexOf(xs, x) == Some(i)
  {
  }

  /** Inserting something else after the first occurrence of `x` leaves
      that occurrence the first one; an element present stays present. */
  lemma InsertedFirst<T>(xs: seq<T>, x: T, i: nat, k: nat, y: T)
    requires IndexOf(xs, x) == Some(i) && i < k <= |xs| && y != x
    ensures IndexOf(Inserted(xs, k, y), x) == Some(i)
  {
    FirstIndex(Inserted(xs, k, y), x, i);
  }

  lemma InsertedKeeps<T>(xs: seq<T>, x: T, k: nat, y: T)
    requires x in xs && k <= |xs|
    ensures x in Inserted(xs, k, y)
  {
    var ins := Inserted(xs, k, y);
    var e :| 0 <= e < |xs| && xs[e] == x;
    if e < k {
      assert ins[e] == x;
    } else {
      assert ins[e + 1] == x;
    }
  }

  /** Inserting a bundle line right after `return [`, or further down,
      leaves the indentation read from the line after `return [` as it
      was. */
  lemma InsertedIndentation(lines: seq<string>, ret: nat, k: nat, name: string)
    requires ClassName(name)
    requires ret < k <= |lines|
    ensures var line := BundleLine(Indentation(lines, ret), name);
      Indentation(Inserted(lines, k, line), ret) == Indentation(lines, ret)
  {
    var indent := Indentation(lines, ret);
    var line := BundleLine(indent, name);
    var ins := Inserted(lines, k, line);
    if k == ret + 1 {
      assert ins[ret + 1] == indent + (name + BundleSuffix);
      LeadingSpaceOf(indent, name + BundleSuffix);
    } else {
      assert ins[ret + 1] == lines[ret + 1];
    }
  }

  /** Inserting the bundle line keeps `return [` where it was, keeps `];`,
      and keeps the indentation, so the same bundle line is computed again
      and is found. */
  lemma RegisteredAgain(lines: seq<string>, name: string)
    requires ClassName(name)
    requires Registration(lines, name).Ok?
    ensures var (line, k) := Registration(lines, name).value;
      var ins := Inserted(lines, k, line);
      Registration(ins, name).Ok? && Registration(ins, name).value.0 == line && line in ins
  {
    var (line, k) := Registration(lines, name).value;
    var (ret, end) := Locate(lines).value;
    var ins := Inserted(lines, k, line);
    assert ins[k] == line;
    assert line != ReturnOpen && line != ReturnClose by {
      assert line[|line| - 1] == ',';
    }
    InsertedFirst(lines, ReturnOpen, ret, k, line);
    InsertedKeeps(lines, ReturnClose, k, line);
    InsertedIndentation(lines, ret, k, name);
  }

  /** `addToBundle` is idempotent: registering the same bundle twice leaves
      the file of the first registration as it is. */
  lemma AddIdempotent(content: string, name: string)
    requires ClassName(name)
    requires BundleAdded(content, name, true, true).Ok?
    ensures var once := BundleAdded(content, name, true, true).value;
      BundleAdded(once, name, true, true) == Ok(once)
  {
    var lines := Split(content, EOL);
    var (line, k) := Registration(lines, name).value;
    if line !in lines {
      AddedLines(content, name);
      RegisteredAgain(lines, name);
    }
  }

  /** A block is sorted when no line sorts before an earlier one. */
  predicate Sorted(block: seq<string>) {
    forall i, j :: 0 <= i < j < |block| ==> !Less(block[j], block[i])
  }

  /** Inserting a line before the first line that sorts after it keeps a
      sorted block sorted. */
  lemma InsertSorted(block: seq<string>, m: nat, x: string)
    requires Sorted(block) && m < |block| && Less(x, block[m])
    requires forall j :: 0 <= j < m ==> !Less(x, block[j])
    ensures Sorted(block[..m] + [x] + block[m..])
  {
    var s := block[..m] + [x] + block[m..];
    forall i, j | 0 <= i < j < |s|
      ensures !Less(s[j], s[i])
    {
      if j > m && i < m {
        assert s[i] == block[i] && s[j] == block[j - 1];
      } else if j > m && i > m {
        assert s[i] == block[i - 1] && s[j] == block[j - 1];
      } else if j > m {
        assert s[i] == x && s[j] == block[j - 1];
        if Less(s[j], x) {
          LessTransitive(s[j], x, block[m]);
          if j - 1 == m {
            LessIrreflexive(block[m]);
          }
        }
      } else if j == m {
        assert s[i] == block[i] && s[j] == x;
      } else {
        assert s[i] == block[i] && s[j] == block[j];
      }
    }
  }

  /** Inserting inside a slice is inserting into the slice. */
  lemma InsertedSlice<T>(lines: seq<T>, lo: nat, hi: nat, k: nat, line: T)
    requires lo <= k <= hi <= |lines|
    ensures Inserted(lines, k, line)[lo..hi + 1]
      == lines[lo..hi][..k - lo] + [line] + lines[lo..hi][k - lo..]
  {
    var ins := Inserted(lines, k, line);
    var block := lines[lo..hi];
    var t := block[..k - lo] + [line] + block[k - lo..];
    assert |ins[lo..hi + 1]| == |t|;
    forall i | 0 <= i < |t|
      ensures ins[lo..hi + 1][i] == t[i]
    {
      if i < k - lo {
        assert t[i] == block[i];
      } else if i > k - lo {
        assert t[i] == block[i - 1];
      }
    }
  }

  /** When the block between `return [` and `];` is sorted and some line of
      it sorts after the new bundle line, the block with the line inserted
      is sorted too. */
  lemma InsertKeepsSorted(lines: seq<string>, ret: nat, end: nat, line: string)
    requires ret < end <= |lines| && Sorted(lines[ret + 1..end])
    requires exists j :: ret < j < end && Less(line, lines[j])
    ensures var k := InsertIndex(lines, ret, end, line);
      Sorted(Inserted(lines, k, line)[ret + 1..end + 1])
  {
    var k := InsertIndex(lines, ret, end, line);
    var block := lines[ret + 1..end];
    var m := k - (ret + 1);
    assert block[m] == lines[k];
    assert forall j :: 0 <= j < m ==> !Less(line, block[j]) by {
      forall j | 0 <= j < m ensures !Less(line, block[j]) {
        assert block[j] == lines[ret + 1 + j];
      }
    }
    InsertedSlice(lines, ret + 1, end, k, line);
    InsertSorted(block, m, line);
  }

  /** A sample: a sorted registry whose only bundle sorts before the new
      one ends up unsorted, the new line on top. */
  lemma GreatestGoesFirst()
    ensures var lines := [ReturnOpen, BundleLine("", "A"), ReturnClose];
      && Registration(lines, "B") == Ok((BundleLine("", "B"), 1))
      && Sorted(lines[1..2])
      && Inserted(lines, 1, BundleLine("", "B")) == [ReturnOpen, BundleLine("", "B"), BundleLine("", "A"), ReturnClose]
      && !Sorted(Inserted(lines, 1, BundleLine("", "B"))[1..3])
  {
    var a := BundleLine("", "A");
    var b := BundleLine("", "B");
    var lines := [ReturnOpen, a, ReturnClose];
    assert a[0] == 'A' && b[0] == 'B';
    assert IndexOf(lines, ReturnOpen) == Some(0);
    assert IndexOf(lines, ReturnClose) == Some(2) by {
      assert a[0] != ReturnClose[0];
    }
    assert Indentation(lines, 0) == "" by {
      assert a[0] !in PcreSpaces;
    }
    assert Locate(lines) == Ok((0, 2));
    assert !Less(b, a);
    assert Less(a, b);
    assert FirstGreater(lines, 1, 2, b) == None;
    assert Inserted(lines, 1, b)[1..3] == [b, a];
  }
}
