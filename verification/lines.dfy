/**
 * The line format of the roster and state files: how `bufio.Scanner` with its
 * default `ScanLines` split function cuts a file into lines, and how the state
 * file is written back, one `name + "\n"` per entry.
 */
module Lines {

  /** Index of the first newline of `text`, or `|text|` when there is none. */
  function LineEnd(text: string): (k: nat)
    ensures k <= |text|
    ensures forall i :: 0 <= i < k ==> text[i] != '\n'
    ensures k < |text| ==> text[k] == '\n'
  {
    if text == [] || text[0] == '\n' then 0 else 1 + LineEnd(text[1..])
  }

  /** `dropCR`: one trailing carriage return is not part of the line. */
  function DropCR(line: string): (r: string)
    ensures |line| > 0 && line[|line| - 1] == '\r' ==> r + ['\r'] == line
    ensures !(|line| > 0 && line[|line| - 1] == '\r') ==> r == line
  {
    if |line| > 0 && line[|line| - 1] == '\r' then line[..|line| - 1] else line
  }

  /**
   * The tokens `bufio.ScanLines` yields for a whole file: each newline ends a
   * line, a final line without newline still counts, and an empty tail after
   * the last newline yields nothing.
   */
  function ScanLines(text: string): (lines: seq<string>)
    ensures text == [] <==> lines == []
    ensures forall i :: 0 <= i < |lines| ==> '\n' !in lines[i]
    decreases |text|
  {
    if text == [] then []
    else
      var k := LineEnd(text);
      if k == |text| then [DropCR(text)]
      else [DropCR(text[..k])] + ScanLines(text[k + 1..])
  }

  /** What the state file holds after `name + "\n"` has been written for each entry. */
  function Serialize(names: seq<string>): (text: string)
    ensures |text| >= |names|
    ensures names != [] ==> text != [] && text[|text| - 1] == '\n'
  {
    if names == [] then [] else names[0] + "\n" + Serialize(names[1..])
  }

  predicate NoNewline(names: seq<string>) {
    forall i :: 0 <= i < |names| ==> '\n' !in names[i]
  }

  function MapDropCR(lines: seq<string>): (r: seq<string>)
    ensures |r| == |lines|
    ensures forall i :: 0 <= i < |lines| ==> r[i] == DropCR(lines[i])
  {
    if lines == [] then [] else [DropCR(lines[0])] + MapDropCR(lines[1..])
  }

  /**
   * Reading back what was written gives the names in order, each with any
   * trailing carriage return removed: the write and the scan agree on where
   * every line ends as long as no name holds a newline itself.
   */
  lemma {:induction false} ScanSerialize(names: seq<string>)
    requires NoNewline(names)
    ensures ScanLines(Serialize(names)) == MapDropCR(names)
  {
    if names != [] {
      var text := Serialize(names);
      var n := names[0];
      assert text == n + "\n" + Serialize(names[1..]);
      assert text[|n|] == '\n';
      assert forall i :: 0 <= i < |n| ==> text[i] == n[i];
      assert LineEnd(text) == |n|;
      assert text[..|n|] == n;
      assert text[|n| + 1..] == Serialize(names[1..]);
      ScanSerialize(names[1..]);
    }
  }

  /** A line ended by a newline is scanned off the front on its own. */
  lemma ScanStep(n: string, rest: string)
    requires '\n' !in n
    ensures ScanLines(n + "\n" + rest) == [DropCR(n)] + ScanLines(rest)
  {
    var text := n + "\n" + rest;
    assert text[|n|] == '\n';
    assert forall i :: 0 <= i < |n| ==> text[i] == n[i];
    assert LineEnd(text) == |n|;
    assert text[..|n|] == n;
    assert text[|n| + 1..] == rest;
  }

  /**
   * A last line without a newline still counts: scanning lines that each end
   * in a newline, followed by a non-empty unterminated line, gives all of them.
   */
  lemma {:induction false} ScanUnterminated(names: seq<string>, last: string)
    requires NoNewline(names) && last != [] && '\n' !in last
    ensures ScanLines(Serialize(names) + last) == MapDropCR(names) + [DropCR(last)]
  {
    if names == [] {
      assert Serialize(names) + last == last;
      assert LineEnd(last) == |last|;
      assert MapDropCR(names) + [DropCR(last)] == [DropCR(last)];
    } else {
      var n, rest := names[0], names[1..];
      SerializeFront(names, last);
      ScanStep(n, Serialize(rest) + last);
      ScanUnterminated(rest, last);
      MapDropCRFront(names, [DropCR(last)]);
    }
  }

  lemma SerializeFront(names: seq<string>, last: string)
    requires names != []
    ensures Serialize(names) + last == names[0] + "\n" + (Serialize(names[1..]) + last)
  {
    assert Serialize(names) == names[0] + "\n" + Serialize(names[1..]);
  }

  lemma MapDropCRFront(lines: seq<string>, more: seq<string>)
    requires lines != []
    ensures MapDropCR(lines) + more == [DropCR(lines[0])] + (MapDropCR(lines[1..]) + more)
  {
    var head, tail := [DropCR(lines[0])], MapDropCR(lines[1..]);
    assert MapDropCR(lines) == head + tail;
    AppendAssoc(head, tail, more);
  }

  /** Regrouping a concatenation; stated on its own, outside any larger proof, it stays cheap for the prover. */
  lemma AppendAssoc<T>(a: seq<T>, b: seq<T>, c: seq<T>)
    ensures (a + b) + c == a + (b + c)
  {
  }

  /** Lines that do not end in a carriage return lose nothing to `dropCR`. */
  lemma MapDropCRKeeps(lines: seq<string>)
    requires forall i :: 0 <= i < |lines| ==> |lines[i]| == 0 || lines[i][|lines[i]| - 1] != '\r'
    ensures MapDropCR(lines) == lines
  {
    assert forall i :: 0 <= i < |lines| ==> MapDropCR(lines)[i] == lines[i];
  }

  /** A text of newlines only scans to empty lines. */
  lemma {:induction false} ScanBlank(text: string)
    requires forall k :: 0 <= k < |text| ==> text[k] == '\n'
    ensures forall i :: 0 <= i < |ScanLines(text)| ==> ScanLines(text)[i] == []
    decreases |text|
  {
    if text != [] {
      assert LineEnd(text) == 0;
      ScanBlank(text[1..]);
      if |text| > 1 {
        assert ScanLines(text) == [DropCR([])] + ScanLines(text[1..]);
      }
    }
  }
}
