/**
 * The buffered command loop (`runBufferedMode`): each input line is
 * lower-cased and trimmed, then matched against the command words; a pick or
 * a reset changes the state file, every other command leaves it alone, and
 * `q`, `quit` or `exit` end the session, as does the end of the input.
 */
module Commands {
  import opened Text
  import opened Results
  import opened Shuffling
  import opened StateStore
  import opened Tracker
  import Roster
  import Lines

  datatype Command = PickCmd | ResetCmd | StatusCmd | HelpCmd | QuitCmd | Blank | Unknown(word: string)

  /** The words the loop recognises, keys and spelled-out forms. */
  const CommandWords: seq<string> := ["p", "pick", "r", "reset", "s", "status", "h", "help", "q", "quit", "exit"]

  /** The command a normalized line selects; the empty line is skipped and any other word is unknown. */
  function Lookup(w: string): (c: Command)
    ensures c.Blank? <==> w == []
    ensures c.Unknown? <==> w != [] && w !in CommandWords
    ensures c.Unknown? ==> c.word == w
  {
    if w == "p" || w == "pick" then PickCmd
    else if w == "r" || w == "reset" then ResetCmd
    else if w == "s" || w == "status" then StatusCmd
    else if w == "h" || w == "help" then HelpCmd
    else if w == "q" || w == "quit" || w == "exit" then QuitCmd
    else if w == [] then Blank
    else Unknown(w)
  }

  /** The line as the loop compares it: `strings.TrimSpace(strings.ToLower(line))`. */
  function Normalize(line: string): (w: string)
    ensures IsTrimmed(w)
    ensures forall k :: 0 <= k < |w| ==> !('A' <= w[k] <= 'Z')
  {
    ToLowerTrimCommute(line);
    ToLowerFolds(Trim(line));
    Trim(ToLower(line))
  }

  /** The command an input line selects. */
  function Classify(line: string): (c: Command)
  {
    Lookup(Normalize(line))
  }

  /** A line is skipped exactly when it is blank. */
  lemma ClassifyBlankIffSpace(line: string)
    ensures Classify(line) == Blank <==> forall k :: 0 <= k < |line| ==> IsSpace(line[k])
  {
    ToLowerTrimCommute(line);
    TrimEmptyIffBlank(line);
  }

  /** Case and surrounding white space make no difference to the command a line selects. */
  lemma ClassifyIgnoresCaseAndPadding(pre: string, word: string, post: string)
    requires forall k :: 0 <= k < |pre| ==> IsSpace(pre[k])
    requires forall k :: 0 <= k < |post| ==> IsSpace(post[k])
    requires word != [] && IsTrimmed(word)
    ensures Classify(pre + word + post) == Classify(ToLower(word))
  {
    TrimPadded(pre, word, post);
    ToLowerTrimCommute(pre + word + post);
    ToLowerIdempotent(word);
    ToLowerTrimCommute(word);
    TrimTrimmed(word);
    ToLowerTrimCommute(ToLower(word));
  }

  lemma ToLowerIdempotent(s: string)
    ensures ToLower(ToLower(s)) == ToLower(s)
  {
    ToLowerFolds(s);
    ToLowerFolds(ToLower(s));
  }

  /** A lower-case word with no white space at either end is compared as it is. */
  lemma NormalizeKeeps(w: string)
    requires IsTrimmed(w)
    requires forall k :: 0 <= k < |w| ==> !('A' <= w[k] <= 'Z')
    ensures Normalize(w) == w
  {
    ToLowerFolds(w);
    assert ToLower(w) == w;
    TrimTrimmed(w);
  }

  /** A word of small letters selects what `Lookup` gives for it. */
  lemma ClassifyLetters(w: string)
    requires forall k :: 0 <= k < |w| ==> 'a' <= w[k] <= 'z'
    ensures Classify(w) == Lookup(w)
  {
    NormalizeKeeps(w);
  }

  /** The short key of each command, the letter its help line shows. */
  function Key(c: Command): (k: string)
    requires !c.Blank? && !c.Unknown?
    ensures |k| == 1 && 'a' <= k[0] <= 'z'
  {
    match c
    case PickCmd => "p"
    case ResetCmd => "r"
    case StatusCmd => "s"
    case HelpCmd => "h"
    case QuitCmd => "q"
  }

  /** The spelled-out word of each command. */
  function Word(c: Command): (w: string)
    requires !c.Blank? && !c.Unknown?
    ensures |w| >= 4 && forall k :: 0 <= k < |w| ==> 'a' <= w[k] <= 'z'
  {
    match c
    case PickCmd => "pick"
    case ResetCmd => "reset"
    case StatusCmd => "status"
    case HelpCmd => "help"
    case QuitCmd => "quit"
  }

  /** Typing a command's key, or its word, selects that command. */
  lemma ClassifyKeyAndWord(c: Command)
    requires !c.Blank? && !c.Unknown?
    ensures Classify(Key(c)) == c
    ensures Classify(Word(c)) == c
  {
    var k, w := Key(c), Word(c);
    assert Lookup(k) == c && Lookup(w) == c by {
      LookupKeyAndWord(c);
    }
    assert Classify(k) == Lookup(k) by {
      ClassifyLetters(k);
    }
    assert Classify(w) == Lookup(w) by {
      ClassifyLetters(w);
    }
  }

  /** `exit` is a third way to quit. */
  lemma ClassifyExit()
    ensures Classify("exit") == QuitCmd
  {
    var w := "exit";
    assert Lookup(w) == QuitCmd by {
      assert w[0] == 'e' && |w| == 4;
    }
    ClassifyLetters(w);
  }

  lemma LookupKeyAndWord(c: Command)
    requires !c.Blank? && !c.Unknown?
    ensures Lookup(Key(c)) == c && Lookup(Word(c)) == c
  {
    match c
    case PickCmd =>
    case ResetCmd =>
    case StatusCmd =>
    case HelpCmd =>
    case QuitCmd =>
  }

  /** What one command leaves behind: the state file, whether the loop ends, and who was called. */
  datatype Outcome = Outcome(store: Store, stop: bool, called: Option<string>)

  /**
   * One pass of the loop. A pick that cannot write the state file ends the
   * program with an error; every other command succeeds.
   */
  function Step(roster: seq<string>, store: Store, c: Command, rng: Rng, writable: bool): (r: Result<Outcome>)
    requires |roster| > 0
    ensures r.Err? ==> c == PickCmd && r.error == WriteFailed
    ensures r.Ok? ==> (r.value.stop <==> c == QuitCmd)
    ensures r.Ok? ==> (r.value.called.Some? <==> c == PickCmd)
    ensures c != PickCmd && c != ResetCmd ==> r.Ok? && r.value.store == store
    ensures c == ResetCmd ==> r.Ok? && r.value.store == Absent
    ensures c == PickCmd ==> (r.Ok? <==> PickNext(roster, store, rng, writable).Ok?)
    ensures c == PickCmd && r.Ok? ==>
      var t := PickNext(roster, store, rng, writable).value;
      r.value.called == Some(t.name) && r.value.store == t.store
  {
    match c
    case PickCmd =>
      var p := PickNext(roster, store, rng, writable);
      if p.Err? then Err(p.error) else Ok(Outcome(p.value.store, false, Some(p.value.name)))
    case ResetCmd => Ok(Outcome(ResetState(roster, store).store, false, None))
    case StatusCmd => Ok(Outcome(ShowStatus(roster, store, rng).store, false, None))
    case QuitCmd => Ok(Outcome(store, true, None))
    case _ => Ok(Outcome(store, false, None))
  }

  /** The end of a session: the state file left behind and who was called, in order. */
  datatype Session = Session(store: Store, called: seq<string>)

  /** The commands the input lines select, line by line. */
  function Classified(lines: seq<string>): (cs: seq<Command>)
    ensures |cs| == |lines|
    ensures forall i :: 0 <= i < |lines| ==> cs[i] == Classify(lines[i])
  {
    seq(|lines|, i requires 0 <= i < |lines| => Classify(lines[i]))
  }

  /** How many pick commands come before the first quit command. */
  function Picks(cs: seq<Command>): (n: nat)
    ensures n <= |cs|
  {
    if cs == [] || cs[0] == QuitCmd then 0
    else (if cs[0] == PickCmd then 1 else 0) + Picks(cs[1..])
  }

  /**
   * The loop over the commands the input selects, `rngs[i]` being the random
   * draws of the `i`-th. It stops at a quit command, at the end of the input,
   * or at an error.
   */
  function RunCommands(roster: seq<string>, store: Store, cs: seq<Command>, rngs: seq<Rng>, writable: bool): (r: Result<Session>)
    requires |roster| > 0 && |rngs| == |cs|
    ensures writable ==> r.Ok?
    ensures r.Err? ==> r.error == WriteFailed
    ensures r.Ok? ==> |r.value.called| == Picks(cs)
    decreases |cs|
  {
    if cs == [] then Ok(Session(store, []))
    else
      match Step(roster, store, cs[0], rngs[0], writable)
      case Err(e) => Err(e)
      case Ok(o) =>
        if o.stop then Ok(Session(o.store, []))
        else
          var rest := RunCommands(roster, o.store, cs[1..], rngs[1..], writable);
          if rest.Err? then rest
          else Ok(Session(rest.value.store, (if o.called.Some? then [o.called.value] else []) + rest.value.called))
  }

  /** `runBufferedMode` over the lines of its input. */
  function RunSession(roster: seq<string>, store: Store, lines: seq<string>, rngs: seq<Rng>, writable: bool): (r: Result<Session>)
    requires |roster| > 0 && |rngs| == |lines|
    ensures writable ==> r.Ok?
    ensures r.Ok? ==> |r.value.called| == Picks(Classified(lines))
  {
    RunCommands(roster, store, Classified(lines), rngs, writable)
  }

  /**
   * As many pick lines as there are team members, starting from no state file
   * with the file writable, call every member exactly as often as they are
   * listed and leave no state file: the loop runs one whole round.
   */
  lemma SessionRound(roster: seq<string>, lines: seq<string>, rngs: seq<Rng>)
    requires |roster| > 0 && Roster.ValidRoster(roster)
    requires |lines| == |roster| && |rngs| == |lines|
    requires forall i :: 0 <= i < |lines| ==> Classify(lines[i]) == PickCmd
    ensures var r := RunSession(roster, Absent, lines, rngs, true);
      r.Ok? && r.value.store == Absent && multiset(r.value.called) == multiset(roster)
  {
    RosterIsStored(roster);
    var cs := Classified(lines);
    PicksKeepRound(roster, [], Absent, cs, rngs);
    var r := RunCommands(roster, Absent, cs, rngs, true);
    assert [] + r.value.called == r.value.called;
  }

  /** Picks keep the bookkeeping of a round, and each one calls exactly one member. */
  lemma {:induction false} PicksKeepRound(roster: seq<string>, picked: seq<string>, store: Store, cs: seq<Command>, rngs: seq<Rng>)
    requires |roster| > 0 && AllStored(roster) && |rngs| == |cs|
    requires forall i :: 0 <= i < |cs| ==> cs[i] == PickCmd
    requires InRound(roster, picked, store) && |picked| + |cs| == |roster|
    ensures var r := RunCommands(roster, store, cs, rngs, true);
      r.Ok? && |r.value.called| == |cs| && InRound(roster, picked + r.value.called, r.value.store)
    decreases |cs|
  {
    if cs == [] {
      assert picked + [] == picked;
    } else {
      var t := PickNext(roster, store, rngs[0], true).value;
      var rest := RunCommands(roster, t.store, cs[1..], rngs[1..], true);
      assert rest.Ok? && |rest.value.called| == |cs| - 1
        && InRound(roster, (picked + [t.name]) + rest.value.called, rest.value.store) by {
        PickStep(roster, picked, store, rngs[0]);
        PicksKeepRound(roster, picked + [t.name], t.store, cs[1..], rngs[1..]);
      }
      RunCommandsPick(roster, store, cs, rngs);
      Lines.AppendAssoc(picked, [t.name], rest.value.called);
    }
  }

  /** One pick inside a round keeps its bookkeeping. */
  lemma PickStep(roster: seq<string>, picked: seq<string>, store: Store, rng: Rng)
    requires |roster| > 0 && AllStored(roster)
    requires InRound(roster, picked, store) && |picked| < |roster|
    ensures var t := PickNext(roster, store, rng, true).value;
      InRound(roster, picked + [t.name], t.store)
  {
    var t := PickNext(roster, store, rng, true).value;
    if store.Absent? {
      PickOpensRound(roster, rng);
      assert picked + [t.name] == [t.name];
    } else {
      PickContinuesRound(roster, picked, store.text, rng);
    }
  }

  /** A pick command in the loop with a writable state file calls the picked member and goes on from the file the pick left. */
  lemma RunCommandsPick(roster: seq<string>, store: Store, cs: seq<Command>, rngs: seq<Rng>)
    requires |roster| > 0 && |rngs| == |cs| && cs != [] && cs[0] == PickCmd
    ensures var t := PickNext(roster, store, rngs[0], true).value;
      var rest := RunCommands(roster, t.store, cs[1..], rngs[1..], true).value;
      RunCommands(roster, store, cs, rngs, true) == Ok(Session(rest.store, [t.name] + rest.called))
  {
    var t := PickNext(roster, store, rngs[0], true).value;
    assert Step(roster, store, cs[0], rngs[0], true) == Ok(Outcome(t.store, false, Some(t.name)));
  }

  /** A reset line followed by lines that neither pick nor reset leaves no state file and calls nobody. */
  lemma SessionResetClears(roster: seq<string>, store: Store, cs: seq<Command>, rng: Rng, rngs: seq<Rng>, writable: bool)
    requires |roster| > 0 && |rngs| == |cs|
    requires forall i :: 0 <= i < |cs| ==> cs[i] != PickCmd && cs[i] != ResetCmd
    ensures RunCommands(roster, store, [ResetCmd] + cs, [rng] + rngs, writable) == Ok(Session(Absent, []))
  {
    CommandsReadOnly(roster, Absent, cs, rngs, writable);
    assert ([ResetCmd] + cs)[1..] == cs && ([rng] + rngs)[1..] == rngs;
  }

  /** A session without picks or resets calls nobody and leaves the state file as it found it. */
  lemma SessionReadOnly(roster: seq<string>, store: Store, lines: seq<string>, rngs: seq<Rng>, writable: bool)
    requires |roster| > 0 && |rngs| == |lines|
    requires forall i :: 0 <= i < |lines| ==> Classify(lines[i]) != PickCmd && Classify(lines[i]) != ResetCmd
    ensures RunSession(roster, store, lines, rngs, writable) == Ok(Session(store, []))
  {
    CommandsReadOnly(roster, store, Classified(lines), rngs, writable);
  }

  lemma {:induction false} CommandsReadOnly(roster: seq<string>, store: Store, cs: seq<Command>, rngs: seq<Rng>, writable: bool)
    requires |roster| > 0 && |rngs| == |cs|
    requires forall i :: 0 <= i < |cs| ==> cs[i] != PickCmd && cs[i] != ResetCmd
    ensures RunCommands(roster, store, cs, rngs, writable) == Ok(Session(store, []))
    decreases |cs|
  {
    if cs != [] {
      assert cs[0] != PickCmd && cs[0] != ResetCmd;
      CommandsReadOnly(roster, store, cs[1..], rngs[1..], writable);
    }
  }

  /** Whatever follows a quit command is never read. */
  lemma SessionStopsAtQuit(roster: seq<string>, store: Store, line: string, lines: seq<string>, rng: Rng, rngs: seq<Rng>, writable: bool)
    requires |roster| > 0 && |rngs| == |lines|
    requires Classify(line) == QuitCmd
    ensures RunSession(roster, store, [line] + lines, [rng] + rngs, writable) == Ok(Session(store, []))
  {
    assert Classified([line] + lines)[0] == QuitCmd;
  }
}
