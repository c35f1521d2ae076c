/**
 * The daemon: decoding of a framed request, the process table with its id counter,
 * the completion step of each process supervisor, and the cancel-all on shutdown.
 */
module Service {
  import opened Wrappers
  import opened Text
  import opened Numbers
  import opened Framing
  import opened Records

  /** What a request's fields ask for, once the command code in field 0 has been read. */
  datatype Command =
    | Launch(executable: string, workingDirectory: string, arguments: seq<string>)
    | LaunchMissingFields   // code 1 with fewer than three fields: reading field 1 or 3.. throws
    | Cancel(id: uint32)
    | CancelBadId           // code 2 whose field 1 is not a `uint`
    | CancelMissingId       // code 2 alone: reading field 1 throws
    | FetchAll
    | Unrecognized          // no `int` in field 0 (read as 0), or an `int` other than 1, 2, 3

  /** The value the switch is on: `int.TryParse` of field 0, or 0 when that fails. */
  function Code(field: string): int
  {
    ParseInt32(field).GetOr(0)
  }

  /** The command the switch on `int.TryParse(args[0])` selects, with the fields it reads. */
  function Decode(fields: seq<string>): (cmd: Command)
    requires |fields| >= 1
    ensures cmd.Launch? <==> Code(fields[0]) == 1 && |fields| >= 3
    ensures cmd.Launch? ==> fields == [fields[0], cmd.executable, cmd.workingDirectory] + cmd.arguments
    ensures cmd == LaunchMissingFields <==> Code(fields[0]) == 1 && |fields| < 3
    ensures cmd.Cancel? <==> Code(fields[0]) == 2 && |fields| >= 2 && ParseUInt32(fields[1]).Some?
    ensures cmd.Cancel? ==> ParseUInt32(fields[1]) == Some(cmd.id)
    ensures cmd == CancelBadId <==> Code(fields[0]) == 2 && |fields| >= 2 && ParseUInt32(fields[1]).None?
    ensures cmd == CancelMissingId <==> Code(fields[0]) == 2 && |fields| < 2
    ensures cmd == FetchAll <==> Code(fields[0]) == 3
    ensures cmd == Unrecognized <==> Code(fields[0]) !in {1, 2, 3}
  {
    var command := Code(fields[0]);
    if command == 1 then
      if |fields| >= 3 then
        assert fields == [fields[0], fields[1], fields[2]] + fields[3..];
        Launch(fields[1], fields[2], fields[3..])
      else LaunchMissingFields
    else if command == 2 then
      if |fields| >= 2 then
        match ParseUInt32(fields[1])
        case Some(id) => Cancel(id)
        case None => CancelBadId
      else CancelMissingId
    else if command == 3 then FetchAll
    else Unrecognized
  }

  /** `9<|EOM|>` is not a command the daemon knows. */
  lemma UnknownCodeScenario()
    ensures Decode(Split(Strip("9" + Eom))) == Unrecognized
  {
    assert Strip("9" + Eom) == "9";
    MissingHead("9", Sep);
    SplitJoin(["9"]);
    ParseInt32Dec(9);
    assert Dec(9) == "9";
  }

  /** `2<|s|>999<|EOM|>` asks to cancel process 999. */
  lemma CancelScenario()
    ensures Decode(Split(Strip("2" + Sep + "999" + Eom))) == Cancel(999)
  {
    assert Strip("2" + Sep + "999" + Eom) == "2" + Sep + "999";
    MissingHead("2", Sep);
    MissingHead("999", Sep);
    SplitJoin(["2", "999"]);
    ParseInt32Dec(2);
    assert Dec(2) == "2";
    assert Dec(999) == "999";
    ParseUInt32Dec(999);
  }

  // ---------------------------------------------------------------- output files

  /** The per-daemon directory the output files go to. */
  function OutputDir(baseDir: string): (dir: string)
    ensures baseDir <= dir && dir[|baseDir|..] == "\\logs\\processes"
  {
    baseDir + "\\logs\\processes"
  }

  /** The launch timestamp's text, an underscore, and the id in decimal. */
  function OutputName(stamp: string, id: uint32): (name: string)
    ensures stamp + "_" <= name && name[|stamp| + 1..] == Dec(id as nat)
  {
    stamp + "_" + Dec(id as nat)
  }

  /** The file standard output is piped to. */
  function StdoutPath(dir: string, name: string): (path: string)
    ensures dir + "\\" + name <= path && path[|dir| + 1 + |name|..] == "_output.txt"
  {
    dir + "\\" + name + "_output.txt"
  }

  /** The file standard error is piped to. */
  function StderrPath(dir: string, name: string): (path: string)
    ensures dir + "\\" + name <= path && path[|dir| + 1 + |name|..] == "_error.txt"
  {
    dir + "\\" + name + "_error.txt"
  }

  /** Equal output names have equal ids, whatever text the two timestamps produced. */
  lemma OutputNameDeterminesId(stamp1: string, id1: uint32, stamp2: string, id2: uint32)
    requires OutputName(stamp1, id1) == OutputName(stamp2, id2)
    ensures id1 == id2 && stamp1 == stamp2
  {
    DecSuffix(id1 as nat, id2 as nat, stamp1 + "_", stamp2 + "_");
    DropSuffix(stamp1, stamp2, "_");
  }

  /** Two texts with the same ending agree before it. */
  lemma DropSuffix(x: string, y: string, k: string)
    requires x + k == y + k
    ensures x == y
  {
    assert x == (x + k)[..|x|];
    assert y == (y + k)[..|y|];
  }

  /** Two launches under the same directory share a standard-output file only if they share the id. */
  lemma StdoutPathDeterminesId(dir: string, stamp1: string, id1: uint32, stamp2: string, id2: uint32)
    requires StdoutPath(dir, OutputName(stamp1, id1)) == StdoutPath(dir, OutputName(stamp2, id2))
    ensures id1 == id2
  {
    DropSuffix(dir + "\\" + OutputName(stamp1, id1), dir + "\\" + OutputName(stamp2, id2), "_output.txt");
    PathNameDeterminesId(dir, stamp1, id1, stamp2, id2);
  }

  /** The same for the standard-error file. */
  lemma StderrPathDeterminesId(dir: string, stamp1: string, id1: uint32, stamp2: string, id2: uint32)
    requires StderrPath(dir, OutputName(stamp1, id1)) == StderrPath(dir, OutputName(stamp2, id2))
    ensures id1 == id2
  {
    DropSuffix(dir + "\\" + OutputName(stamp1, id1), dir + "\\" + OutputName(stamp2, id2), "_error.txt");
    PathNameDeterminesId(dir, stamp1, id1, stamp2, id2);
  }

  lemma PathNameDeterminesId(dir: string, stamp1: string, id1: uint32, stamp2: string, id2: uint32)
    requires dir + "\\" + OutputName(stamp1, id1) == dir + "\\" + OutputName(stamp2, id2)
    ensures id1 == id2
  {
    var p1, p2 := dir + "\\" + (stamp1 + "_"), dir + "\\" + (stamp2 + "_");
    assert dir + "\\" + OutputName(stamp1, id1) == p1 + Dec(id1 as nat);
    assert dir + "\\" + OutputName(stamp2, id2) == p2 + Dec(id2 as nat);
    DecSuffix(id1 as nat, id2 as nat, p1, p2);
  }

  /** A standard-output file never has the name of any standard-error file. */
  lemma StdoutNeverStderr(dir1: string, name1: string, dir2: string, name2: string)
    ensures StdoutPath(dir1, name1) != StderrPath(dir2, name2)
  {
    var out, err := StdoutPath(dir1, name1), StderrPath(dir2, name2);
    assert out[|out| - 10] == 'o';
    assert err[|err| - 10] == '_';
  }

  // ---------------------------------------------------------------- the daemon

  /** A process to start: what the supervisor is handed. */
  datatype Job = Job(
    id: uint32,
    executable: string,
    arguments: seq<string>,
    workingDirectory: string,
    stdoutPath: string,
    stderrPath: string)

  /**
   * The end of one request: the text written back (sentinel included) and the process to
   * supervise, if any; or an exception that escapes the accept loop and ends it.
   */
  datatype Outcome = Reply(response: string, spawned: Option<Job>) | Fault

  /** The serialized entries under `keys`, in the order of `keys`. */
  function Serialized(entries: map<uint32, RunningInfo>, keys: seq<uint32>): (segments: seq<string>)
    requires forall i :: 0 <= i < |keys| ==> keys[i] in entries
    ensures |segments| == |keys|
    ensures forall i :: 0 <= i < |keys| ==> segments[i] == Ser(entries[keys[i]])
  {
    seq(|keys|, i requires 0 <= i < |keys| => Ser(entries[keys[i]]))
  }

  /** Appending a segment to a listing appends it and one separator. */
  lemma TerminatedSnoc(segments: seq<string>, last: string)
    ensures Terminated(segments + [last]) == Terminated(segments) + last + Sep
  {
    assert (segments + [last])[..|segments|] == segments;
  }

  /** Listing one more key appends that entry's serialized form and a separator. */
  lemma ListingStep(entries: map<uint32, RunningInfo>, keys: seq<uint32>, i: nat)
    requires forall j :: 0 <= j < |keys| ==> keys[j] in entries
    requires i < |keys|
    ensures Terminated(Serialized(entries, keys[..i + 1]))
         == Terminated(Serialized(entries, keys[..i])) + Ser(entries[keys[i]]) + Sep
  {
    var prefix, longer := keys[..i], keys[..i + 1];
    var done, next := Serialized(entries, prefix), Serialized(entries, longer);
    assert forall j :: 0 <= j < i ==> longer[j] == prefix[j];
    assert forall j :: 0 <= j < i ==> next[j] == done[j];
    assert next == done + [Ser(entries[keys[i]])];
    TerminatedSnoc(done, Ser(entries[keys[i]]));
  }

  /** Every stop time already set in `before` is still there, unchanged, in `after`. */
  predicate StopTimesKept(before: map<uint32, RunningInfo>, after: map<uint32, RunningInfo>)
  {
    forall k :: k in before && before[k].StopTime.Some? ==> k in after && after[k].StopTime == before[k].StopTime
  }

  /**
   * The table holds exactly the ids below `slots`, each entry under its own id, and
   * enumerates them in increasing order, as they were inserted.
   */
  ghost predicate Keyed(entries: map<uint32, RunningInfo>, order: seq<uint32>, slots: nat)
  {
    && (forall k: uint32 :: k in entries <==> k as int < slots)
    && |order| == slots
    && (forall i :: 0 <= i < |order| ==> order[i] as int == i)
    && (forall k :: k in entries ==> entries[k].Id == k)
  }

  /** Inserting the record for id `c`, the next slot or (once all are taken) an existing one, keeps the table keyed. */
  lemma InsertKeyed(entries: map<uint32, RunningInfo>, order: seq<uint32>, slots: nat, c: uint32, info: RunningInfo)
    requires Keyed(entries, order, slots) && slots <= Limit
    requires info.Id == c && (slots < Limit ==> c as int == slots)
    ensures Keyed(entries[c := info], if c in entries then order else order + [c], if slots < Limit then slots + 1 else Limit)
  {
  }

  /** Flagging one entry as cancelled keeps the table keyed and its supervisors consistent. */
  lemma FlagKeeps(entries: map<uint32, RunningInfo>, order: seq<uint32>, slots: nat, pending: multiset<uint32>, launched: nat, k: uint32)
    requires Keyed(entries, order, slots) && Supervised(pending, entries, launched) && k in entries
    ensures var flagged := entries[k := entries[k].(CancelRequested := true)];
      Keyed(flagged, order, slots) && Supervised(pending, flagged, launched)
  {
  }

  /**
   * Every pending supervisor's id has an entry; before the counter wraps, each such id has
   * one supervisor, and its entry has no stop time yet.
   */
  ghost predicate Supervised(pending: multiset<uint32>, entries: map<uint32, RunningInfo>, launched: nat)
  {
    && (forall k :: k in pending ==> k in entries)
    && (launched < Limit ==> forall k :: k in pending ==> pending[k] == 1 && entries[k].StopTime.None?)
  }

  /** A launch adds one supervisor; under a fresh id its entry has no stop time, so the supervisors stay consistent. */
  lemma PendingLaunch(pending: multiset<uint32>, entries: map<uint32, RunningInfo>, launched: nat, c: uint32, info: RunningInfo)
    requires Supervised(pending, entries, launched)
    requires launched < Limit ==> c !in entries
    requires info.StopTime.None?
    ensures Supervised(pending + multiset{c}, entries[c := info], launched + 1)
  {
    if launched + 1 < Limit {
      forall k | k in pending + multiset{c}
        ensures (pending + multiset{c})[k] == 1 && entries[c := info][k].StopTime.None?
      {
        if k != c {
          assert k in pending;
        } else {
          assert c !in pending;
        }
      }
    }
  }

  /** Inserting under an id not yet in the table leaves every stop time in place. */
  lemma InsertKeepsStops(entries: map<uint32, RunningInfo>, c: uint32, info: RunningInfo)
    requires c !in entries
    ensures StopTimesKept(entries, entries[c := info])
  {
  }

  class Daemon {
    /** `_procId`: the id the next launch receives. */
    var counter: uint32
    /** `_running`: the process table. */
    var entries: map<uint32, RunningInfo>
    /** The order in which the table enumerates its keys: insertion order. */
    var order: seq<uint32>
    /** An exception has escaped the accept loop, which has therefore ended. */
    var faulted: bool
    /** The application's base directory, under which the output files go. */
    const baseDir: string
    /** The number of launches that completed. */
    ghost var launched: nat
    /** A launch inserted its entry and then threw before advancing the counter. */
    ghost var aborted: bool
    /** One occurrence of an id per supervisor started for it whose `finally` has not run yet. */
    ghost var pending: multiset<uint32>

    /** How many ids have an entry: one per launch, plus the one an aborted launch inserted, at most 2^32. */
    ghost function Slots(): nat
      reads this
    {
      var n := launched + (if aborted then 1 else 0);
      if n < Limit then n else Limit
    }

    ghost predicate Valid()
      reads this
    {
      && counter as int == launched % Limit
      && (aborted ==> faulted)
      && Keyed(entries, order, Slots())
      && Supervised(pending, entries, launched)
    }

    constructor (baseDir: string)
      ensures Valid() && this.baseDir == baseDir
      ensures counter == 0 && entries == map[] && order == [] && !faulted && launched == 0 && pending == multiset{}
    {
      this.baseDir := baseDir;
      counter, entries, order, faulted := 0, map[], [], false;
      launched, aborted, pending := 0, false, multiset{};
    }

    /** Until the counter wraps, the ids in the table are exactly those below the counter. */
    lemma IdsBelowCounter()
      requires Valid() && !faulted && launched < Limit
      ensures forall k: uint32 :: k in entries <==> k < counter
      ensures forall i :: 0 <= i < |order| ==> order[i] < counter
    {
    }

    /** `_running[_procId] = new RunningInfo(_procId, now, …)`: insert or overwrite, keeping the key's place. */
    method Register(now: Time)
      modifies this`entries, this`order
      ensures entries == old(entries)[counter := Create(counter, now)]
      ensures order == if counter in old(entries) then old(order) else old(order) + [counter]
    {
      if counter !in entries {
        order := order + [counter];
      }
      entries := entries[counter := Create(counter, now)];
    }

    /**
     * One request, from the accumulated text (which holds the sentinel) to the response:
     * strip the sentinel, split into fields, decode, act on the table.
     * `now` is the launch time and `stamp` its formatted text.
     */
    method HandleMessage(raw: string, now: Time, stamp: string) returns (outcome: Outcome)
      requires Valid() && !faulted && Contains(raw, Eom)
      modifies this
      ensures Valid()
      ensures var cmd, c := Decode(Split(Strip(raw))), old(counter);
        match cmd
        case Launch(exe, cwd, args) =>
          && entries == old(entries)[c := Create(c, now)]
          && order == (if c in old(entries) then old(order) else old(order) + [c])
          && counter == Next(c) && launched == old(launched) + 1 && !faulted
          && var name := OutputName(stamp, c);
             outcome == Reply(Ser(Create(c, now)) + Eom,
               Some(Job(c, exe, args, cwd, StdoutPath(OutputDir(baseDir), name), StderrPath(OutputDir(baseDir), name))))
        case LaunchMissingFields =>
          && entries == old(entries)[c := Create(c, now)]
          && order == (if c in old(entries) then old(order) else old(order) + [c])
          && counter == c && launched == old(launched) && faulted
          && outcome == Fault
        case Cancel(id) =>
          && counter == c && order == old(order) && launched == old(launched) && !faulted
          && (id in old(entries) ==>
                && entries == old(entries)[id := old(entries)[id].(CancelRequested := true)]
                && outcome == Reply(Ser(entries[id]) + Eom, None))
          && (id !in old(entries) ==> entries == old(entries) && outcome == Reply(Eom, None))
        case CancelMissingId =>
          && entries == old(entries) && counter == c && order == old(order) && launched == old(launched)
          && faulted && outcome == Fault
        case FetchAll =>
          && unchanged(this)
          && outcome == Reply(Terminated(Serialized(entries, order)) + Eom, None)
        case CancelBadId => unchanged(this) && outcome == Reply(Eom, None)
        case Unrecognized => unchanged(this) && outcome == Reply(Eom, None)
      ensures Decode(Split(Strip(raw))).Launch? && old(launched) < Limit ==>
        old(counter) !in old(entries) && forall k :: k in old(entries) ==> k < old(counter)
      ensures pending == if Decode(Split(Strip(raw))).Launch? then old(pending) + multiset{old(counter)} else old(pending)
      ensures old(launched) < Limit ==> StopTimesKept(old(entries), entries)
    {
      var args := Split(Strip(raw));
      var response := "";
      assert response + Eom == Eom;
      var spawned := None;
      match Decode(args) {
        case Launch(executable, workingDirectory, arguments) =>
          var record, job := LaunchProcess(executable, workingDirectory, arguments, now, stamp);
          response := record;
          spawned := Some(job);
        case LaunchMissingFields =>
          AbortLaunch(now);
          return Fault;
        case Cancel(id) =>
          response := CancelProcess(id);
        case CancelBadId =>
        case CancelMissingId =>
          faulted := true;
          return Fault;
        case FetchAll =>
          response := ListAll();
        case Unrecognized =>
      }
      response := response + Eom;
      outcome := Reply(response, spawned);
    }

    /** Command 1: a fresh entry under the counter, a job for the supervisor, then `_procId++`. */
    method LaunchProcess(executable: string, workingDirectory: string, arguments: seq<string>, now: Time, stamp: string)
      returns (record: string, job: Job)
      requires Valid() && !faulted
      modifies this
      ensures Valid() && !faulted
      ensures entries == old(entries)[old(counter) := Create(old(counter), now)]
      ensures order == if old(counter) in old(entries) then old(order) else old(order) + [old(counter)]
      ensures counter == Next(old(counter)) && launched == old(launched) + 1
      ensures record == Ser(Create(old(counter), now))
      ensures var dir, name := OutputDir(baseDir), OutputName(stamp, old(counter));
        job == Job(old(counter), executable, arguments, workingDirectory, StdoutPath(dir, name), StderrPath(dir, name))
      ensures old(launched) < Limit ==> old(counter) !in old(entries) && forall k :: k in old(entries) ==> k < old(counter)
      ensures pending == old(pending) + multiset{old(counter)}
      ensures old(launched) < Limit ==> StopTimesKept(old(entries), entries)
    {
      ghost var pending0, entries0, slots0 := pending, entries, Slots();
      if launched < Limit {
        IdsBelowCounter();
        InsertKeepsStops(entries, counter, Create(counter, now));
      }
      InsertKeyed(entries, order, slots0, counter, Create(counter, now));
      var outputName := OutputName(stamp, counter);
      var runInfo := Create(counter, now);
      Register(now);
      var dir := OutputDir(baseDir);
      job := Job(counter, executable, arguments, workingDirectory, StdoutPath(dir, outputName), StderrPath(dir, outputName));
      record := Ser(runInfo);
      pending := pending + multiset{counter};
      PendingLaunch(pending0, entries0, launched, counter, runInfo);
      NextTracks(counter, launched);
      counter := Next(counter);
      launched := launched + 1;
    }

    /**
     * Command 1 with fewer than three fields: the entry is inserted, then reading the
     * missing fields throws before `_procId++`, and the exception ends the accept loop.
     */
    method AbortLaunch(now: Time)
      requires Valid() && !faulted
      modifies this
      ensures Valid() && faulted
      ensures entries == old(entries)[old(counter) := Create(old(counter), now)]
      ensures order == if old(counter) in old(entries) then old(order) else old(order) + [old(counter)]
      ensures counter == old(counter) && launched == old(launched) && pending == old(pending)
      ensures old(launched) < Limit ==> StopTimesKept(old(entries), entries)
    {
      if launched < Limit {
        IdsBelowCounter();
      }
      InsertKeyed(entries, order, Slots(), counter, Create(counter, now));
      if launched < Limit {
        InsertKeepsStops(entries, counter, Create(counter, now));
      }
      Register(now);
      faulted, aborted := true, true;
    }

    /** Command 2 with a parsed id: flag the entry's source as cancelled and return the entry; nothing when the id is unknown. */
    method CancelProcess(id: uint32) returns (record: string)
      requires Valid()
      modifies this`entries
      ensures Valid()
      ensures id in old(entries) ==>
        && entries == old(entries)[id := old(entries)[id].(CancelRequested := true)]
        && record == Ser(entries[id])
      ensures id !in old(entries) ==> entries == old(entries) && record == ""
      ensures StopTimesKept(old(entries), entries)
    {
      record := "";
      if id in entries {
        FlagKeeps(entries, order, Slots(), pending, launched, id);
        entries := entries[id := entries[id].(CancelRequested := true)];
        record := Ser(entries[id]);
      }
    }

    /** Command 3: every entry serialized and followed by the separator, in table order. */
    method ListAll() returns (listing: string)
      requires Valid()
      ensures listing == Terminated(Serialized(entries, order))
    {
      OrderInTable();
      listing := "";
      var i := 0;
      while i < |order|
        invariant 0 <= i <= |order|
        invariant listing == Terminated(Serialized(entries, order[..i]))
      {
        ListingStep(entries, order, i);
        listing := listing + Ser(entries[order[i]]);
        listing := listing + Sep;
        i := i + 1;
      }
      assert order[..|order|] == order;
    }

    /** Every key the table enumerates has an entry. */
    lemma OrderInTable()
      requires Valid()
      ensures forall i :: 0 <= i < |order| ==> order[i] in entries
    {
      forall i | 0 <= i < |order|
        ensures order[i] in entries
      {
        assert order[i] as int < Slots();
      }
    }

    /**
     * The `finally` of a supervisor started for `id`: copy the entry, set its stop time,
     * write the copy back. Before the counter wraps, this is the only write of that stop
     * time: it was unset, and no supervisor for `id` is left afterwards.
     */
    method Complete(id: uint32, now: Time)
      requires Valid() && id in pending
      modifies this`entries, this`pending
      ensures Valid()
      ensures entries == old(entries)[id := old(entries)[id].(StopTime := Some(now))]
      ensures pending == old(pending) - multiset{id}
      ensures old(launched) < Limit ==> old(entries)[id].StopTime.None? && id !in pending
      ensures old(launched) < Limit ==> StopTimesKept(old(entries), entries)
    {
      var runningInfo := entries[id];
      runningInfo := runningInfo.(StopTime := Some(now));
      entries := entries[id := runningInfo];
      pending := pending - multiset{id};
    }

    /** After the accept loop: request cancellation of every entry, in table order. */
    method Shutdown()
      requires Valid() && !faulted
      modifies this`entries
      ensures Valid()
      ensures entries.Keys == old(entries).Keys
      ensures forall k :: k in entries ==> entries[k] == old(entries)[k].(CancelRequested := true)
      ensures StopTimesKept(old(entries), entries)
    {
      var i := 0;
      while i < |order|
        invariant 0 <= i <= |order|
        invariant Valid()
        invariant entries.Keys == old(entries).Keys
        invariant forall k :: k in entries ==>
          entries[k] == if k as int < i then old(entries)[k].(CancelRequested := true) else old(entries)[k]
      {
        var k := order[i];
        FlagKeeps(entries, order, Slots(), pending, launched, k);
        entries := entries[k := entries[k].(CancelRequested := true)];
        i := i + 1;
      }
    }
  }

  // ---------------------------------------------------------------- scenarios

  /** A launch with no argument list: `1<|s|>python<|s|>work<|s|><|EOM|>`. */
  const LaunchRequest := "1" + Sep + "python" + Sep + "work" + Sep + Eom

  /** The launch request asks for `python` in `work` with one empty argument. */
  lemma LaunchScenario()
    ensures Decode(Split(Strip(LaunchRequest))) == Launch("python", "work", [""])
  {
    var fields := ["1", "python", "work", ""];
    assert Join(fields[3..]) == "";
    assert Join(fields[2..]) == "work" + Sep;
    assert Join(fields[1..]) == "python" + Sep + ("work" + Sep);
    assert Strip(LaunchRequest) == Join(fields);
    MissingHead("1", Sep);
    MissingHead("python", Sep);
    MissingHead("work", Sep);
    MissingHead("", Sep);
    SplitJoin(fields);
    ParseInt32Dec(1);
    assert Dec(1) == "1";
  }

  /** `3<|EOM|>` asks for the whole table. */
  lemma FetchScenario()
    ensures Decode(Split(Strip("3" + Eom))) == FetchAll
  {
    assert Strip("3" + Eom) == "3";
    MissingHead("3", Sep);
    SplitJoin(["3"]);
    ParseInt32Dec(3);
    assert Dec(3) == "3";
  }

  /** A fresh daemon asked to cancel process 999 answers the bare sentinel. */
  method UnknownIdScenario(baseDir: string, now: Time, stamp: string) returns (outcome: Outcome)
    ensures outcome == Reply(Eom, None)
  {
    var daemon := new Daemon(baseDir);
    var raw := "2" + Sep + "999" + Eom;
    assert raw[9..] == Eom && At(raw, 9, Eom);
    CancelScenario();
    outcome := daemon.HandleMessage(raw, now, stamp);
  }

  /** A fresh daemon launches `python` in `work` as id 0 and answers its record. */
  method FreshLaunch(baseDir: string, now: Time, stamp: string) returns (daemon: Daemon, launch: Outcome)
    ensures fresh(daemon) && daemon.Valid() && !daemon.faulted
    ensures daemon.entries == map[0 := Create(0, now)] && daemon.order == [0]
    ensures var name := OutputName(stamp, 0);
      launch == Reply(Ser(Create(0, now)) + Eom,
        Some(Job(0, "python", [""], "work", StdoutPath(OutputDir(baseDir), name), StderrPath(OutputDir(baseDir), name))))
  {
    daemon := new Daemon(baseDir);
    assert LaunchRequest[26..] == Eom && At(LaunchRequest, 26, Eom);
    LaunchScenario();
    launch := daemon.HandleMessage(LaunchRequest, now, stamp);
  }

  /**
   * After that launch, a fetch lists exactly the launched record, followed by a separator,
   * and changes nothing.
   */
  method LaunchThenFetchScenario(baseDir: string, now: Time, stamp: string) returns (launch: Outcome, fetch: Outcome)
    ensures var name := OutputName(stamp, 0);
      launch == Reply(Ser(Create(0, now)) + Eom,
        Some(Job(0, "python", [""], "work", StdoutPath(OutputDir(baseDir), name), StderrPath(OutputDir(baseDir), name))))
    ensures fetch == Reply(Ser(Create(0, now)) + Sep + Eom, None)
  {
    var daemon;
    daemon, launch := FreshLaunch(baseDir, now, stamp);
    var info := Create(0, now);
    var raw := "3" + Eom;
    assert raw[1..] == Eom && At(raw, 1, Eom);
    FetchScenario();
    fetch := daemon.HandleMessage(raw, now, stamp);
    assert daemon.entries == map[0 := info] && daemon.order == [0];
    assert Serialized(daemon.entries, daemon.order) == [Ser(info)];
    assert Terminated([Ser(info)]) == Ser(info) + Sep;
  }
}
