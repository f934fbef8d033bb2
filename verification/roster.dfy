/** `loadTeamMembers`: the roster is the trimmed, non-blank, non-comment lines of the team file. */
module Roster {
  import opened Text
  import opened Lines
  import opened Results

  /** A line the loader keeps once it has been trimmed. */
  predicate Accepted(name: string) {
    name != [] && !IsComment(name)
  }

  /** A roster entry: what the loader can produce from a real file. */
  predicate IsName(name: string) {
    Accepted(name) && IsTrimmed(name) && '\n' !in name
  }

  predicate ValidRoster(roster: seq<string>) {
    forall i :: 0 <= i < |roster| ==> IsName(roster[i])
  }

  /** What one line contributes: its trimmed form, unless that is blank or a comment. */
  function Kept(line: string): (r: seq<string>)
    ensures |r| <= 1
    ensures r == [] || r == [Trim(line)]
    ensures forall x :: x in r <==> x == Trim(line) && Accepted(x)
  {
    var name := Trim(line);
    if Accepted(name) then [name] else []
  }

  /** Keeps `Trim(line)` for every line whose trimmed form is non-empty and not a `#` comment. */
  function FilterRoster(lines: seq<string>): (r: seq<string>)
    ensures |r| <= |lines|
  {
    if lines == [] then [] else Kept(lines[0]) + FilterRoster(lines[1..])
  }

  /** Every roster entry is trimmed, non-empty and not a comment. */
  lemma FilterRosterAccepted(lines: seq<string>)
    ensures forall i :: 0 <= i < |FilterRoster(lines)| ==>
      Accepted(FilterRoster(lines)[i]) && IsTrimmed(FilterRoster(lines)[i])
  {
    var r := FilterRoster(lines);
    forall i | 0 <= i < |r|
      ensures Accepted(r[i]) && IsTrimmed(r[i])
    {
      FilterRosterFrom(lines, r[i]);
    }
  }

  /** A name is on the roster exactly when some line trims to it and it is not a comment. */
  lemma FilterRosterMembers(lines: seq<string>, x: string)
    ensures x in FilterRoster(lines) <==> Accepted(x) && exists k :: 0 <= k < |lines| && Trim(lines[k]) == x
  {
    if x in FilterRoster(lines) {
      FilterRosterFrom(lines, x);
    }
    if Accepted(x) && exists k :: 0 <= k < |lines| && Trim(lines[k]) == x {
      var k :| 0 <= k < |lines| && Trim(lines[k]) == x;
      FilterRosterTo(lines, k);
    }
  }

  /** Every roster entry is accepted and comes from some line. */
  lemma FilterRosterFrom(lines: seq<string>, x: string)
    requires x in FilterRoster(lines)
    ensures Accepted(x) && exists k :: 0 <= k < |lines| && Trim(lines[k]) == x
  {
    var k := FilterRosterSource(lines, x);
  }

  /** The line a roster entry comes from. */
  lemma {:induction false} FilterRosterSource(lines: seq<string>, x: string) returns (k: nat)
    requires x in FilterRoster(lines)
    ensures k < |lines| && Trim(lines[k]) == x && Accepted(x)
    decreases |lines|
  {
    assert lines != [];
    var tail := lines[1..];
    if x in FilterRoster(tail) {
      var k' := FilterRosterSource(tail, x);
      k := k' + 1;
      assert lines[k] == tail[k'];
    } else {
      assert x in Kept(lines[0]) by {
        assert FilterRoster(lines) == Kept(lines[0]) + FilterRoster(tail);
      }
      k := 0;
    }
  }

  /** Every accepted line makes it onto the roster. */
  lemma {:induction false} FilterRosterTo(lines: seq<string>, k: nat)
    requires k < |lines| && Accepted(Trim(lines[k]))
    ensures Trim(lines[k]) in FilterRoster(lines)
  {
    var tail := lines[1..];
    if k == 0 {
      assert Kept(lines[0]) == [Trim(lines[0])];
    } else {
      assert tail[k - 1] == lines[k];
      FilterRosterTo(tail, k - 1);
    }
  }

  /** The filter works line by line, so it keeps the input order. */
  lemma {:induction false} FilterRosterAppend(a: seq<string>, b: seq<string>)
    ensures FilterRoster(a + b) == FilterRoster(a) + FilterRoster(b)
  {
    if a == [] {
      assert a + b == b;
    } else {
      assert (a + b)[0] == a[0];
      assert (a + b)[1..] == a[1..] + b;
      FilterRosterAppend(a[1..], b);
      assert Kept(a[0]) + (FilterRoster(a[1..]) + FilterRoster(b))
        == (Kept(a[0]) + FilterRoster(a[1..])) + FilterRoster(b);
    }
  }

  /** Lines that are already roster entries pass through unchanged, duplicates included. */
  lemma {:induction false} FilterRosterKeepsNames(names: seq<string>)
    requires forall i :: 0 <= i < |names| ==> Accepted(names[i]) && IsTrimmed(names[i])
    ensures FilterRoster(names) == names
  {
    if names != [] {
      TrimTrimmed(names[0]);
      FilterRosterKeepsNames(names[1..]);
    }
  }

  /** Filtering a filtered roster changes nothing. */
  lemma FilterRosterIdempotent(lines: seq<string>)
    ensures FilterRoster(FilterRoster(lines)) == FilterRoster(lines)
  {
    FilterRosterAccepted(lines);
    FilterRosterKeepsNames(FilterRoster(lines));
  }

  /**
   * `loadTeamMembers`: an unopenable team file is an error; otherwise the
   * roster, possibly empty, which the caller must reject itself.
   */
  function LoadTeamMembers(file: Option<string>): (r: Result<seq<string>>)
    ensures file.None? <==> r.Err?
    ensures r.Err? ==> r.error == SourceUnreadable
    ensures r.Ok? ==> ValidRoster(r.value)
    ensures r.Ok? && file.value == [] ==> r.value == []
    ensures r.Ok? ==> r.value == FilterRoster(ScanLines(file.value))
  {
    match file
    case None => Err(SourceUnreadable)
    case Some(text) =>
      var lines := ScanLines(text);
      var r := FilterRoster(lines);
      FilterRosterAccepted(lines);
      assert forall i :: 0 <= i < |r| ==> '\n' !in r[i] by {
        forall i | 0 <= i < |r|
          ensures '\n' !in r[i]
        {
          FilterRosterMembers(lines, r[i]);
          var k :| 0 <= k < |lines| && Trim(lines[k]) == r[i];
          TrimSubstring(lines[k]);
        }
      }
      Ok(r)
  }

  /** A comment, two names and a blank line between them load as the two names, in order. */
  lemma LoadTeamMembersExample()
    ensures LoadTeamMembers(Some("# t\nAlice\n\nBob\n")) == Ok(["Alice", "Bob"])
  {
    ExampleScan();
    ExampleLines();
  }

  // The examples' steps are separate lemmas only to keep each proof small for the prover.

  lemma ExampleScan()
    ensures ScanLines("# t\nAlice\n\nBob\n") == ["# t", "Alice", "", "Bob"]
  {
    var lines := ["# t", "Alice", "", "Bob"];
    assert ScanLines(Serialize(lines)) == MapDropCR(lines) by {
      ExampleNoNewline();
      ScanSerialize(lines);
    }
    ExampleNoCR();
    ExampleText();
  }

  lemma ExampleNoNewline()
    ensures NoNewline(["# t", "Alice", "", "Bob"])
  {
    var lines := ["# t", "Alice", "", "Bob"];
    assert '\n' !in lines[0];
    assert '\n' !in lines[1];
    assert '\n' !in lines[2];
    assert '\n' !in lines[3];
  }

  lemma ExampleNoCR()
    ensures MapDropCR(["# t", "Alice", "", "Bob"]) == ["# t", "Alice", "", "Bob"]
  {
    var lines := ["# t", "Alice", "", "Bob"];
    assert lines[0][|lines[0]| - 1] != '\r';
    assert lines[1][|lines[1]| - 1] != '\r';
    assert |lines[2]| == 0;
    assert lines[3][|lines[3]| - 1] != '\r';
    MapDropCRKeeps(lines);
  }

  lemma ExampleText()
    ensures Serialize(["# t", "Alice", "", "Bob"]) == "# t\nAlice\n\nBob\n"
  {
    var lines := ["# t", "Alice", "", "Bob"];
    assert Serialize(lines[3..]) == "Bob\n";
    assert Serialize(lines[2..]) == "\n" + Serialize(lines[3..]);
    assert Serialize(lines[1..]) == "Alice\n" + Serialize(lines[2..]);
  }

  lemma ExampleLines()
    ensures FilterRoster(["# t", "Alice", "", "Bob"]) == ["Alice", "Bob"]
  {
    var lines := ["# t", "Alice", "", "Bob"];
    assert Kept(lines[0]) == [] by {
      TrimTrimmed(lines[0]);
    }
    assert Kept(lines[1]) == ["Alice"] by {
      TrimTrimmed(lines[1]);
    }
    assert Kept(lines[2]) == [] by {
      TrimTrimmed(lines[2]);
    }
    assert Kept(lines[3]) == ["Bob"] by {
      TrimTrimmed(lines[3]);
    }
    assert FilterRoster(lines[4..]) == [];
    assert FilterRoster(lines[3..]) == ["Bob"];
    assert FilterRoster(lines[2..]) == ["Bob"];
    assert FilterRoster(lines[1..]) == ["Alice", "Bob"];
  }

  /** The test team file with comments, a blank line and no newline after its last name loads as its five names. */
  lemma LoadTeamMembersFromFile()
    ensures LoadTeamMembers(Some(TestFileText)) == Ok(["Alice", "Bob", "Charlie", "Diana", "Eve"])
  {
    FromFileScan();
    FromFileFilter();
  }

  /** The team file of the loader's test: eight lines each ended by a newline, then `Eve` with none. */
  const TestFileText := Serialize(TestFileLines) + "Eve"

  const TestFileLines: seq<string> := ["# Team members for testing", "Alice", "Bob", "# This is a comment", "Charlie", "", "Diana", "# Another comment"]

  lemma FromFileScan()
    ensures ScanLines(TestFileText) == TestFileLines + ["Eve"]
  {
    var lines := TestFileLines;
    assert ScanLines(TestFileText) == MapDropCR(lines) + [DropCR("Eve")] by {
      TestFileNoNewline();
      ScanUnterminated(lines, "Eve");
    }
    assert DropCR("Eve") == "Eve";
    TestFileNoCR();
  }

  lemma TestFileNoNewline()
    ensures NoNewline(TestFileLines)
  {
    var lines := TestFileLines;
    assert '\n' !in lines[0];
    assert '\n' !in lines[1];
    assert '\n' !in lines[2];
    assert '\n' !in lines[3];
    assert '\n' !in lines[4];
    assert '\n' !in lines[5];
    assert '\n' !in lines[6];
    assert '\n' !in lines[7];
  }

  lemma TestFileNoCR()
    ensures MapDropCR(TestFileLines) == TestFileLines
  {
    var lines := TestFileLines;
    assert lines[0][|lines[0]| - 1] != '\r';
    assert lines[1][|lines[1]| - 1] != '\r';
    assert lines[2][|lines[2]| - 1] != '\r';
    assert lines[3][|lines[3]| - 1] != '\r';
    assert lines[4][|lines[4]| - 1] != '\r';
    assert |lines[5]| == 0;
    assert lines[6][|lines[6]| - 1] != '\r';
    assert lines[7][|lines[7]| - 1] != '\r';
    MapDropCRKeeps(lines);
  }

  lemma FromFileFilter()
    ensures FilterRoster(TestFileLines + ["Eve"]) == ["Alice", "Bob", "Charlie", "Diana", "Eve"]
  {
    var lines := TestFileLines + ["Eve"];
    assert lines == lines[..4] + lines[4..];
    FilterRosterAppend(lines[..4], lines[4..]);
    FromFileHead();
    FromFileTail();
  }

  lemma FromFileHead()
    ensures FilterRoster((TestFileLines + ["Eve"])[..4]) == ["Alice", "Bob"]
  {
    var lines := (TestFileLines + ["Eve"])[..4];
    assert lines == ["# Team members for testing", "Alice", "Bob", "# This is a comment"];
    assert Kept(lines[0]) == [] by {
      TrimTrimmed(lines[0]);
    }
    assert Kept(lines[1]) == ["Alice"] by {
      TrimTrimmed(lines[1]);
    }
    assert Kept(lines[2]) == ["Bob"] by {
      TrimTrimmed(lines[2]);
    }
    assert Kept(lines[3]) == [] by {
      TrimTrimmed(lines[3]);
    }
    assert FilterRoster(lines[4..]) == [];
    assert FilterRoster(lines[3..]) == [];
    assert FilterRoster(lines[2..]) == ["Bob"];
    assert FilterRoster(lines[1..]) == ["Alice", "Bob"];
  }

  lemma FromFileTail()
    ensures FilterRoster((TestFileLines + ["Eve"])[4..]) == ["Charlie", "Diana", "Eve"]
  {
    var lines := (TestFileLines + ["Eve"])[4..];
    assert lines == ["Charlie"] + ["", "Diana", "# Another comment", "Eve"];
    assert Kept(lines[0]) == ["Charlie"] by {
      TrimTrimmed(lines[0]);
    }
    FromFileLast();
  }

  lemma FromFileLast()
    ensures FilterRoster(["", "Diana", "# Another comment", "Eve"]) == ["Diana", "Eve"]
  {
    var lines := ["", "Diana", "# Another comment", "Eve"];
    assert Kept(lines[0]) == [] by {
      TrimTrimmed(lines[0]);
    }
    assert Kept(lines[1]) == ["Diana"] by {
      TrimTrimmed(lines[1]);
    }
    assert Kept(lines[2]) == [] by {
      TrimTrimmed(lines[2]);
    }
    assert Kept(lines[3]) == ["Eve"] by {
      TrimTrimmed(lines[3]);
    }
    assert FilterRoster(lines[4..]) == [];
    assert FilterRoster(lines[3..]) == ["Eve"];
    assert FilterRoster(lines[2..]) == ["Eve"];
    assert FilterRoster(lines[1..]) == ["Diana", "Eve"];
  }

  /** Trimming cannot introduce a newline. */
  lemma TrimSubstring(line: string)
    requires '\n' !in line
    ensures '\n' !in Trim(line)
  {
    TrimIsSlice(line);
    var t := Trim(line);
    var i := TrimStart(line);
    forall k | 0 <= k < |t|
      ensures t[k] != '\n'
    {
      assert t[k] == line[i + k];
    }
  }

  /**
   * Each line is judged on its own, wherever it stands: a blank or comment
   * line is skipped without disturbing the rest, and any other line is kept,
   * trimmed, between the names before it and the names after it.
   */
  lemma FilterRosterLine(before: seq<string>, line: string, after: seq<string>)
    ensures !Accepted(Trim(line)) ==>
      FilterRoster(before + [line] + after) == FilterRoster(before) + FilterRoster(after)
    ensures Accepted(Trim(line)) ==>
      FilterRoster(before + [line] + after) == FilterRoster(before) + [Trim(line)] + FilterRoster(after)
  {
    FilterRosterSplit(before, line, after);
    if Accepted(Trim(line)) {
      assert Kept(line) == [Trim(line)];
    } else {
      assert Kept(line) == [];
      assert FilterRoster(before) + [] == FilterRoster(before);
    }
  }

  /** The roster of lines around one line is the rosters on either side joined by what that line contributes. */
  lemma FilterRosterSplit(before: seq<string>, line: string, after: seq<string>)
    ensures FilterRoster(before + [line] + after) == FilterRoster(before) + Kept(line) + FilterRoster(after)
  {
    FilterRosterAppend(before + [line], after);
    FilterRosterAppend(before, [line]);
    assert FilterRoster([line]) == Kept(line) by {
      assert [line][1..] == [];
      assert Kept(line) + [] == Kept(line);
    }
  }

  /** The team file of comments only gives an empty roster rather than an error. */
  lemma FilterRosterOnlyComments()
    ensures FilterRoster(["# Only comments here", "# Another comment", "# Yet another comment"]) == []
  {
    var lines := ["# Only comments here", "# Another comment", "# Yet another comment"];
    forall i | 0 <= i < |lines|
      ensures !Accepted(Trim(lines[i]))
    {
      var l := lines[i];
      assert l[0] == '#' && l[|l| - 1] != ' ';
      TrimTrimmed(l);
    }
    FilterRosterDropsAll(lines);
  }

  /** The roster is empty exactly when every line is blank or a comment once trimmed. */
  lemma FilterRosterEmptyIff(lines: seq<string>)
    ensures FilterRoster(lines) == [] <==> forall i :: 0 <= i < |lines| ==> !Accepted(Trim(lines[i]))
  {
    if forall i :: 0 <= i < |lines| ==> !Accepted(Trim(lines[i])) {
      FilterRosterDropsAll(lines);
    } else {
      var i :| 0 <= i < |lines| && Accepted(Trim(lines[i]));
      FilterRosterTo(lines, i);
    }
  }

  /** Lines that are all blank or comments give an empty roster. */
  lemma {:induction false} FilterRosterDropsAll(lines: seq<string>)
    requires forall i :: 0 <= i < |lines| ==> !Accepted(Trim(lines[i]))
    ensures FilterRoster(lines) == []
  {
    if lines != [] {
      assert !Accepted(Trim(lines[0]));
      FilterRosterDropsAll(lines[1..]);
    }
  }

  /** A name padded with spaces or tabs on either side is kept without the padding. */
  lemma FilterRosterTrimsPadding(pre: string, name: string, post: string)
    requires forall k :: 0 <= k < |pre| ==> IsSpace(pre[k])
    requires forall k :: 0 <= k < |post| ==> IsSpace(post[k])
    requires Accepted(name) && IsTrimmed(name)
    ensures FilterRoster([pre + name + post]) == [name]
  {
    TrimPadded(pre, name, post);
  }
}
