/**
 * The three state-changing commands of the picker, `pickNextPerson`,
 * `resetState` and `showStatus`, as functions from the roster and the current
 * state file to what the command reports and the state file it leaves behind,
 * and the round they drive: starting from no state file, as many picks as
 * there are team members call every member exactly once and leave no state
 * file, so the next pick opens a new round.
 */
module Tracker {
  import opened Results
  import opened Shuffling
  import opened StateStore
  import opened Lines
  import Roster

  /** What one pick reports: who was called, who is still due, the new state file, and whether the round was restarted first. */
  datatype Turn = Turn(name: string, remaining: seq<string>, store: Store, restarted: bool)

  /** Every entry of a valid roster survives a save and a load. */
  lemma RosterIsStored(roster: seq<string>)
    requires Roster.ValidRoster(roster)
    ensures AllStored(roster)
  {
    forall i | 0 <= i < |roster|
      ensures IsStoredName(roster[i])
    {
      assert Roster.IsName(roster[i]);
    }
  }

  /** Rearranging a list of storable names gives storable names. */
  lemma StoredPermutation(a: seq<string>, b: seq<string>)
    requires AllStored(a) && multiset(a) == multiset(b)
    ensures AllStored(b)
  {
    forall i | 0 <= i < |b|
      ensures IsStoredName(b[i])
    {
      assert b[i] in multiset(b);
      var j :| 0 <= j < |a| && a[j] == b[i];
    }
  }

  /**
   * `pickNextPerson`, for the non-empty roster the program insists on. The
   * remaining list is loaded; if it is empty (a state file with no names in
   * it) the round restarts from a fresh shuffle of the roster. The head is
   * called and the tail saved; when saving is impossible the program exits
   * with an error before announcing anyone.
   */
  function PickNext(roster: seq<string>, store: Store, rng: Rng, writable: bool): (r: Result<Turn>)
    requires |roster| > 0
    ensures var loaded := LoadRemaining(roster, store, rng);
      && (r.Ok? && loaded != [] ==> [r.value.name] + r.value.remaining == loaded && !r.value.restarted)
      && (r.Ok? && loaded == [] ==>
            r.value.restarted && multiset([r.value.name] + r.value.remaining) == multiset(roster))
      && (r.Err? <==> !writable && |loaded| != 1 && (loaded != [] || |roster| != 1))
    ensures r.Err? ==> r.error == WriteFailed
    ensures r.Ok? ==> (r.value.restarted <==> store.Present? && ParseState(store.text) == [])
    ensures r.Ok? && store.Absent? ==> multiset([r.value.name] + r.value.remaining) == multiset(roster)
    ensures r.Ok? ==> (r.value.store == Absent <==> r.value.remaining == [])
    ensures r.Ok? && AllStored(roster) ==>
      AllStored(r.value.remaining)
      && (r.value.store.Present? ==> ParseState(r.value.store.text) == r.value.remaining)
  {
    var loaded := LoadRemaining(roster, store, rng);
    var restarted := loaded == [];
    var queue := if restarted then Shuffle(roster, rng) else loaded;
    assert queue == [queue[0]] + queue[1..];
    var saved := SaveRemaining(queue[1..], writable);
    if saved.Err? then Err(saved.error)
    else
      PickNextStored(roster, store, rng, queue);
      Ok(Turn(queue[0], queue[1..], saved.value, restarted))
  }

  /** The queue a pick draws from holds storable names, so its tail reads back exactly once saved. */
  lemma PickNextStored(roster: seq<string>, store: Store, rng: Rng, queue: seq<string>)
    requires |queue| > 0
    requires queue == LoadRemaining(roster, store, rng) || queue == Shuffle(roster, rng)
    ensures AllStored(roster) ==> AllStored(queue[1..])
    ensures AllStored(roster) && |queue| > 1 ==>
      ParseState(SaveRemaining(queue[1..], true).value.text) == queue[1..]
  {
    if AllStored(roster) {
      if store.Absent? || queue == Shuffle(roster, rng) {
        StoredPermutation(roster, queue);
      }
      assert AllStored(queue);
      if |queue| > 1 {
        SaveLoadRoundTrip(queue[1..], roster, rng);
      }
    }
  }

  /** What `resetState` reports: the state file it leaves and how many members are available. */
  datatype Reset = Reset(store: Store, available: nat)

  /** `resetState`: the state file is removed and the whole roster is announced as available. */
  function ResetState(roster: seq<string>, store: Store): (r: Reset)
    ensures r.store == Absent && r.available == |roster|
  {
    Reset(Absent, |roster|)
  }

  /** Resetting twice is resetting once. */
  lemma ResetIdempotent(roster: seq<string>, store: Store)
    ensures ResetState(roster, ResetState(roster, store).store) == ResetState(roster, store)
  {
  }

  /** After a reset the next pick calls a roster member, opens no restart, and leaves everyone else due. */
  lemma ResetStartsFreshRound(roster: seq<string>, store: Store, rng: Rng, writable: bool)
    requires |roster| > 0
    ensures var r := PickNext(roster, ResetState(roster, store).store, rng, writable);
      r.Ok? ==> (!r.value.restarted && r.value.name in roster
        && multiset(r.value.remaining) == multiset(roster) - multiset{r.value.name})
  {
    var r := PickNext(roster, Absent, rng, writable);
    if r.Ok? {
      var t := r.value;
      assert multiset([t.name] + t.remaining) == multiset{t.name} + multiset(t.remaining);
      assert t.name in multiset(roster);
    }
  }

  /** What `showStatus` reports, with the state file it leaves. */
  datatype Status = Status(total: nat, remaining: seq<string>, store: Store)

  /**
   * `showStatus`: reads the remaining list without saving it. With no state
   * file the list is a throw-away shuffle, so all members are reported due.
   */
  function ShowStatus(roster: seq<string>, store: Store, rng: Rng): (r: Status)
    ensures r.store == store
    ensures r.total == |roster|
    ensures store.Absent? ==> |r.remaining| == |roster| && multiset(r.remaining) == multiset(roster)
    ensures store.Present? ==> r.remaining == ParseState(store.text)
  {
    Status(|roster|, LoadRemaining(roster, store, rng), store)
  }

  /** With a state file present, the status lists exactly who the coming picks will call, in that order. */
  lemma StatusPreviewsPick(roster: seq<string>, store: Store, rng: Rng, rng': Rng)
    requires |roster| > 0 && store.Present?
    requires ShowStatus(roster, store, rng).remaining != []
    ensures var r := PickNext(roster, store, rng', true);
      r.Ok? && [r.value.name] + r.value.remaining == ShowStatus(roster, store, rng).remaining
  {
  }

  /** The bookkeeping of a round that started with no state file, after the picks in `picked`. */
  ghost predicate InRound(roster: seq<string>, picked: seq<string>, store: Store) {
    match store
    case Absent =>
      picked == [] || (|picked| == |roster| && multiset(picked) == multiset(roster))
    case Present(text) =>
      var due := ParseState(text);
      picked != [] && due != [] && |picked| + |due| == |roster|
      && multiset(picked) + multiset(due) == multiset(roster)
  }

  /** The first pick of a round calls one member and leaves exactly the others due. */
  lemma PickOpensRound(roster: seq<string>, rng: Rng)
    requires |roster| > 0 && AllStored(roster)
    ensures var t := PickNext(roster, Absent, rng, true).value;
      !t.restarted && InRound(roster, [t.name], t.store)
  {
    var t := PickNext(roster, Absent, rng, true).value;
    var loaded := LoadRemaining(roster, Absent, rng);
    assert [t.name] + t.remaining == loaded;
    assert multiset(loaded) == multiset([t.name]) + multiset(t.remaining);
  }

  /** A later pick of a round moves the head of the due list over to the called members. */
  lemma PickContinuesRound(roster: seq<string>, picked: seq<string>, text: string, rng: Rng)
    requires |roster| > 0 && AllStored(roster)
    requires InRound(roster, picked, Present(text))
    ensures var t := PickNext(roster, Present(text), rng, true).value;
      !t.restarted && InRound(roster, picked + [t.name], t.store)
  {
    var t := PickNext(roster, Present(text), rng, true).value;
    var due := ParseState(text);
    assert [t.name] + t.remaining == due && !t.restarted;
    MoveHead(picked, due, t.name, t.remaining);
    assert t.store.Present? ==> ParseState(t.store.text) == t.remaining;
  }

  /** Calling the head of the due list keeps the called and the due members together as before. */
  lemma MoveHead(picked: seq<string>, due: seq<string>, name: string, rest: seq<string>)
    requires [name] + rest == due
    ensures |picked + [name]| + |rest| == |picked| + |due|
    ensures multiset(picked + [name]) + multiset(rest) == multiset(picked) + multiset(due)
  {
    assert multiset(due) == multiset{name} + multiset(rest);
    assert multiset(picked + [name]) == multiset(picked) + multiset{name};
  }

  /**
   * A whole round from no state file: one pick per member, with the state file
   * writable. Every member is called exactly as often as they are listed and
   * no state file is left, so the next pick starts the next round.
   */
  method RunRound(roster: seq<string>, rngs: seq<Rng>) returns (picked: seq<string>, store: Store)
    requires |roster| > 0 && Roster.ValidRoster(roster)
    requires |rngs| >= |roster|
    ensures |picked| == |roster| && multiset(picked) == multiset(roster)
    ensures store == Absent
  {
    RosterIsStored(roster);
    picked, store := [], ResetState(roster, Absent).store;
    var i := 0;
    while i < |roster|
      invariant 0 <= i <= |roster| && |picked| == i
      invariant InRound(roster, picked, store)
    {
      if store.Absent? {
        PickOpensRound(roster, rngs[i]);
      } else {
        PickContinuesRound(roster, picked, store.text, rngs[i]);
      }
      var r := PickNext(roster, store, rngs[i], true);
      picked, store := picked + [r.value.name], r.value.store;
      i := i + 1;
    }
  }

  /**
   * When a pick calls the last member due, the state file is removed, so the
   * pick after it reshuffles through the missing-file path: it calls a roster
   * member without the "everyone has already had a turn" restart.
   */
  lemma NextRoundStartsSilently(roster: seq<string>, store: Store, rng: Rng, rng': Rng, writable: bool, writable': bool)
    requires |roster| > 0
    requires PickNext(roster, store, rng, writable).Ok?
    requires PickNext(roster, store, rng, writable).value.remaining == []
    ensures PickNext(roster, store, rng, writable).value.store == Absent
    ensures var r := PickNext(roster, PickNext(roster, store, rng, writable).value.store, rng', writable');
      r.Ok? ==> !r.value.restarted && r.value.name in roster
  {
    ResetStartsFreshRound(roster, store, rng', writable');
  }

  /** The restart notice appears when the state file exists but holds only empty lines. */
  lemma RestartOnBlankStore(roster: seq<string>, text: string, rng: Rng, writable: bool)
    requires |roster| > 0
    requires forall k :: 0 <= k < |text| ==> text[k] == '\n'
    ensures var r := PickNext(roster, Present(text), rng, writable);
      r.Ok? ==> r.value.restarted && r.value.name in roster
  {
    ScanBlank(text);
    BlankStoredNames(ScanLines(text));
    var r := PickNext(roster, Present(text), rng, writable);
    if r.Ok? {
      var t := r.value;
      assert multiset([t.name] + t.remaining) == multiset{t.name} + multiset(t.remaining);
      assert t.name in multiset(roster);
    }
  }
}
