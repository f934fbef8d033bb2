/**
 * The state file that carries "who is still to pick this round" between
 * invocations: `loadRemaining` and `saveRemaining`. The file is modelled by its
 * text; `Absent` stands for every case in which opening it fails, which the
 * program treats alike as "no state yet".
 */
module StateStore {
  import opened Text
  import opened Lines
  import opened Results
  import opened Shuffling
  import Roster

  datatype Store = Absent | Present(text: string)

  /** A name the state file can carry through a save and a load unchanged. */
  predicate IsStoredName(name: string) {
    name != [] && IsTrimmed(name) && '\n' !in name
  }

  predicate AllStored(names: seq<string>) {
    forall i :: 0 <= i < |names| ==> IsStoredName(names[i])
  }

  /** The read loop of `loadRemaining`: trimmed lines, blank ones dropped, `#` lines kept. */
  function StoredNames(lines: seq<string>): (r: seq<string>)
    ensures |r| <= |lines|
  {
    if lines == [] then []
    else
      var name := Trim(lines[0]);
      if name != [] then [name] + StoredNames(lines[1..]) else StoredNames(lines[1..])
  }

  /** Every name read back is non-empty and trimmed, and holds no newline when the lines hold none. */
  lemma {:induction false} StoredNamesShape(lines: seq<string>)
    requires NoNewline(lines)
    ensures AllStored(StoredNames(lines))
  {
    if lines != [] {
      StoredNamesShape(lines[1..]);
      TrimIsSlice(lines[0]);
      var t := Trim(lines[0]);
      assert forall k :: 0 <= k < |t| ==> t[k] == lines[0][TrimStart(lines[0]) + k];
    }
  }

  /** Stored names pass through the read loop unchanged, `#` names included. */
  lemma {:induction false} StoredNamesKeepsNames(names: seq<string>)
    requires AllStored(names)
    ensures StoredNames(names) == names
  {
    if names != [] {
      TrimTrimmed(names[0]);
      StoredNamesKeepsNames(names[1..]);
    }
  }

  /** One line gives its trimmed form, `#` lines included, unless it is blank. */
  lemma StoredNamesLine(line: string)
    ensures StoredNames([line]) == if Trim(line) == [] then [] else [Trim(line)]
  {
    assert [line][1..] == [];
  }

  /** The read loop works line by line, so it keeps the file's order. */
  lemma {:induction false} StoredNamesAppend(a: seq<string>, b: seq<string>)
    ensures StoredNames(a + b) == StoredNames(a) + StoredNames(b)
  {
    if a == [] {
      assert a + b == b;
    } else {
      assert (a + b)[0] == a[0];
      assert (a + b)[1..] == a[1..] + b;
      StoredNamesAppend(a[1..], b);
      var head := StoredNames([a[0]]);
      assert StoredNames(a) == head + StoredNames(a[1..]) by {
        StoredNamesLine(a[0]);
      }
      assert StoredNames(a + b) == head + StoredNames(a[1..] + b) by {
        StoredNamesLine(a[0]);
      }
      AppendAssoc(head, StoredNames(a[1..]), StoredNames(b));
    }
  }

  /** Empty lines give no stored names. */
  lemma {:induction false} BlankStoredNames(lines: seq<string>)
    requires forall i :: 0 <= i < |lines| ==> lines[i] == []
    ensures StoredNames(lines) == []
  {
    if lines != [] {
      assert Trim(lines[0]) == [];
      BlankStoredNames(lines[1..]);
    }
  }

  /** The roster filter is the state-file read loop with `#` names dropped afterwards. */
  function DropComments(names: seq<string>): (r: seq<string>)
    ensures forall i :: 0 <= i < |r| ==> !IsComment(r[i])
  {
    if names == [] then []
    else if IsComment(names[0]) then DropComments(names[1..])
    else [names[0]] + DropComments(names[1..])
  }

  /** Reading the state file differs from loading the roster only in keeping `#` lines. */
  lemma {:induction false} RosterIsStoredWithoutComments(lines: seq<string>)
    ensures Roster.FilterRoster(lines) == DropComments(StoredNames(lines))
  {
    if lines != [] {
      RosterIsStoredWithoutComments(lines[1..]);
      DropCommentsStep(lines);
      assert Roster.FilterRoster(lines) == Roster.Kept(lines[0]) + Roster.FilterRoster(lines[1..]);
    }
  }

  /** One line of the read loop followed by the comment filter is one line of the roster filter. */
  lemma DropCommentsStep(lines: seq<string>)
    requires lines != []
    ensures DropComments(StoredNames(lines)) == Roster.Kept(lines[0]) + DropComments(StoredNames(lines[1..]))
  {
    var rest, name := StoredNames(lines[1..]), Trim(lines[0]);
    if name == [] {
      assert StoredNames(lines) == rest;
      assert Roster.Kept(lines[0]) == [];
    } else {
      var stored := [name] + rest;
      assert StoredNames(lines) == stored;
      assert stored[0] == name && stored[1..] == rest;
      if IsComment(name) {
        assert Roster.Kept(lines[0]) == [];
      } else {
        assert Roster.Kept(lines[0]) == [name];
      }
    }
  }

  /** The names a present state file holds. */
  function ParseState(text: string): (r: seq<string>)
    ensures AllStored(r)
  {
    var lines := ScanLines(text);
    StoredNamesShape(lines);
    StoredNames(lines)
  }

  /**
   * `loadRemaining`: with no state file, a freshly shuffled copy of the roster;
   * otherwise the names in the file, in file order, neither shuffled nor
   * checked against the roster.
   */
  function LoadRemaining(roster: seq<string>, store: Store, rng: Rng): (r: seq<string>)
    ensures store.Absent? ==> |r| == |roster| && multiset(r) == multiset(roster)
    ensures store.Present? ==> r == ParseState(store.text) && AllStored(r)
  {
    match store
    case Absent => Shuffle(roster, rng)
    case Present(text) => ParseState(text)
  }

  /**
   * `saveRemaining`: an empty list removes the file; otherwise the file is
   * created afresh and holds one `name + "\n"` per entry. `writable` is whether
   * `os.Create` succeeds; when it does not, the program stops with an error.
   */
  function SaveRemaining(names: seq<string>, writable: bool): (r: Result<Store>)
    ensures names == [] ==> r == Ok(Absent)
    ensures names != [] ==> (r.Ok? <==> writable)
    ensures names != [] && r.Ok? ==> r.value.Present?
    ensures r.Err? ==> r.error == WriteFailed
  {
    if names == [] then Ok(Absent)
    else if !writable then Err(WriteFailed)
    else Ok(Present(Serialize(names)))
  }

  /** A trimmed, non-empty name has no trailing carriage return to lose. */
  lemma {:induction false} DropCRStored(names: seq<string>)
    requires AllStored(names)
    ensures MapDropCR(names) == names
  {
    if names != [] {
      var n := names[0];
      assert IsSpace(n[|n| - 1]) ==> false;
      assert DropCR(n) == n;
      DropCRStored(names[1..]);
    }
  }

  /** What a save writes, a load reads back exactly. */
  lemma SaveLoadRoundTrip(names: seq<string>, roster: seq<string>, rng: Rng)
    requires names != [] && AllStored(names)
    ensures SaveRemaining(names, true).Ok?
    ensures LoadRemaining(roster, SaveRemaining(names, true).value, rng) == names
  {
    assert NoNewline(names);
    ScanSerialize(names);
    DropCRStored(names);
    StoredNamesKeepsNames(names);
  }

  /** Saving the empty list leaves no state file, so the next load reshuffles the roster. */
  lemma SaveEmptyReshuffles(roster: seq<string>, writable: bool, rng: Rng)
    ensures SaveRemaining([], writable) == Ok(Absent)
    ensures multiset(LoadRemaining(roster, SaveRemaining([], writable).value, rng)) == multiset(roster)
  {
  }
}
