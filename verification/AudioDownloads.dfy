/**
  Concurrent downloads, one small step at a time, with crashes: what is found
  under a final name is always a whole retrieval.
 */
module AudioDownloads {
  import opened Basics
  import opened AudioCaches

  /** How far one call of `ensure` has come. */
  datatype Call =
    | Checking(id: Uuid, hash: DataHash)
    | Fetching(id: Uuid, hash: DataHash)
    | Fetched(id: Uuid, hash: DataHash, data: seq<byte>)
    | Numbered(id: Uuid, hash: DataHash, data: seq<byte>, number: nat)
    | Writing(id: Uuid, hash: DataHash, data: seq<byte>, number: nat, written: nat)
    | Returned
  {
    /** The call owns a download name. */
    predicate Owns() {
      Numbered? || Writing?
    }

    function Temp(): FileName
      requires Owns()
    {
      Download(id, number)
    }
  }

  /** `fetched` remembers every retrieval the server ever completed, across restarts. */
  datatype Disk = Disk(files: Directory, counter: nat, calls: map<nat, Call>, fetched: set<(Uuid, seq<byte>)>)

  datatype Action =
    | Begin(call: nat, id: Uuid, hash: DataHash)
    | Check(call: nat)
    | Fetch(call: nat, data: seq<byte>)
    | TakeNumber(call: nat)
    | Create(call: nat)
    | WriteOn(call: nat, more: nat)
    | Rename(call: nat)
    | Fail(call: nat)
    | Remove(name: FileName)
    | Crash

  function Act(d: Disk, action: Action): Disk {
    match action
    case Begin(p, id, hash) => if p in d.calls then d else d.(calls := d.calls[p := Checking(id, hash)])
    case Check(p) =>
      if p in d.calls && d.calls[p].Checking? then
        var call := d.calls[p];
        var next := if Audio(call.id, call.hash) in d.files then Returned else Fetching(call.id, call.hash);
        d.(calls := d.calls[p := next])
      else d
    case Fetch(p, data) =>
      if p in d.calls && d.calls[p].Fetching? then
        var call := d.calls[p];
        d.(calls := d.calls[p := Fetched(call.id, call.hash, data)], fetched := d.fetched + {(call.id, data)})
      else d
    case TakeNumber(p) =>
      if p in d.calls && d.calls[p].Fetched? then
        var call := d.calls[p];
        d.(calls := d.calls[p := Numbered(call.id, call.hash, call.data, d.counter)], counter := d.counter + 1)
      else d
    case Create(p) =>
      if p in d.calls && d.calls[p].Numbered? then
        var call := d.calls[p];
        d.(calls := d.calls[p := Writing(call.id, call.hash, call.data, call.number, 0)],
           files := d.files[call.Temp() := []])
      else d
    case WriteOn(p, more) =>
      if p in d.calls && d.calls[p].Writing? then
        var call := d.calls[p];
        var upTo := Min(call.written + more, |call.data|);
        if upTo < call.written then d
        else
          d.(calls := d.calls[p := call.(written := upTo)],
             files := if call.Temp() in d.files then d.files[call.Temp() := call.data[..upTo]] else d.files)
      else d
    case Rename(p) =>
      if p in d.calls && d.calls[p].Writing? && d.calls[p].written == |d.calls[p].data| then
        var call := d.calls[p];
        var left := d.(calls := d.calls[p := Returned]);
        if call.Temp() in d.files
        then left.(files := (d.files - {call.Temp()})[Audio(call.id, call.hash) := d.files[call.Temp()]])
        else left
      else d
    case Fail(p) => if p in d.calls then d.(calls := d.calls[p := Returned]) else d
    case Remove(name) => d.(files := d.files - {name})
    case Crash => d.(calls := map[], counter := 0)
  }

  function Play(d: Disk, actions: seq<Action>): Disk
    decreases actions
  {
    if actions == [] then d else Play(Act(d, actions[0]), actions[1..])
  }

  /** A file under a final name is as it was at the outset, or a whole retrieval for its achievement. */
  predicate Whole(base: Directory, d: Disk, name: FileName)
    requires name in d.files && name.Audio?
  {
    (name in base && d.files[name] == base[name]) || (name.id, d.files[name]) in d.fetched
  }

  ghost predicate WholeFinals(base: Directory, d: Disk) {
    forall name :: name in d.files && name.Audio? ==> Whole(base, d, name)
  }

  /** What a call carries is a whole retrieval, and the part of it on disk is the part it has written. */
  predicate GoodCall(d: Disk, call: Call) {
    && (call.Fetched? || call.Owns() ==> (call.id, call.data) in d.fetched)
    && (call.Owns() ==> call.number < d.counter)
    && (call.Writing? ==>
         && call.written <= |call.data|
         && (call.Temp() in d.files ==> d.files[call.Temp()] == call.data[..call.written]))
  }

  ghost predicate GoodCalls(d: Disk) {
    && (forall p :: p in d.calls ==> GoodCall(d, d.calls[p]))
    && (forall p, q :: p in d.calls && q in d.calls && p != q && d.calls[p].Owns() && d.calls[q].Owns() ==>
         d.calls[p].number != d.calls[q].number)
  }

  /** Files that are neither cached audio nor downloads are never created or changed. */
  ghost predicate ForeignKept(base: Directory, d: Disk) {
    forall name :: name in d.files && name.Foreign? ==> name in base && d.files[name] == base[name]
  }

  ghost predicate Consistent(base: Directory, d: Disk) {
    WholeFinals(base, d) && GoodCalls(d) && ForeignKept(base, d)
  }

  lemma {:induction false} ActWhole(base: Directory, d: Disk, action: Action)
    requires Consistent(base, d)
    ensures WholeFinals(base, Act(d, action)) && ForeignKept(base, Act(d, action))
  {
    if action.Rename? && action.call in d.calls && d.calls[action.call].Writing? {
      var call := d.calls[action.call];
      assert GoodCall(d, call);
      assert call.data[..|call.data|] == call.data;
    }
  }

  lemma {:induction false} ActGoodCalls(d: Disk, action: Action)
    requires GoodCalls(d)
    ensures GoodCalls(Act(d, action))
  {
    var d' := Act(d, action);
    forall p | p in d'.calls
      ensures GoodCall(d', d'.calls[p])
    {
      if p in d.calls {
        assert GoodCall(d, d.calls[p]);
      }
    }
  }

  lemma {:induction false} PlayConsistent(base: Directory, d: Disk, actions: seq<Action>)
    requires Consistent(base, d)
    ensures Consistent(base, Play(d, actions))
    decreases actions
  {
    if actions != [] {
      ActWhole(base, d, actions[0]);
      ActGoodCalls(d, actions[0]);
      PlayConsistent(base, Act(d, actions[0]), actions[1..]);
    }
  }

  /**
    At every point of every interleaving of downloads, removals, failures and
    crashes with a restart, every file under a final name is a file that was
    there at the outset or the whole of what some retrieval for its achievement
    returned; cut-off data is found under download names only.
   */
  lemma {:induction false} FinalNamesAreWhole(base: Directory, actions: seq<Action>)
    ensures WholeFinals(base, Play(Disk(base, 0, map[], {}), actions))
    ensures ForeignKept(base, Play(Disk(base, 0, map[], {}), actions))
  {
    PlayConsistent(base, Disk(base, 0, map[], {}), actions);
  }

  // ------------------------------------------------------------------
  // One call on its own.

  /** From the call to the download number, when the file is not there yet. */
  function Opening(p: nat, id: Uuid, hash: DataHash, data: seq<byte>): seq<Action> {
    [Begin(p, id, hash), Check(p), Fetch(p, data), TakeNumber(p)]
  }

  function Closing(p: nat, data: seq<byte>, fate: EnsureFate): seq<Action> {
    match fate.write
    case NotCreated => [Fail(p)]
    case CutShort(length) => [Create(p), WriteOn(p, length), Fail(p)]
    case Written => [Create(p), WriteOn(p, |data|), if fate.renameWorks then Rename(p) else Fail(p)]
  }

  /** The steps that make up one `ensure` under a given fate. */
  function Steps(c: Cache, p: nat, id: Uuid, hash: DataHash, fate: EnsureFate): seq<Action> {
    if !fate.statWorks then [Begin(p, id, hash), Fail(p)]
    else if Audio(id, hash) in c.files then [Begin(p, id, hash), Check(p)]
    else if !fate.mkdirWorks || fate.retrieval.Err? then [Begin(p, id, hash), Check(p), Fail(p)]
    else Opening(p, id, hash, fate.retrieval.value) + Closing(p, fate.retrieval.value, fate)
  }

  lemma {:induction false} PlayConcat(d: Disk, a: seq<Action>, b: seq<Action>)
    ensures Play(d, a + b) == Play(Play(d, a), b)
    decreases a
  {
    if a == [] {
      assert a + b == b;
    } else {
      assert (a + b)[1..] == a[1..] + b;
      PlayConcat(Act(d, a[0]), a[1..], b);
    }
  }

  lemma {:induction false} PlayTwo(d: Disk, a: Action, b: Action)
    ensures Play(d, [a, b]) == Act(Act(d, a), b)
  {
    assert [a, b][1..] == [b] && [b][1..] == [];
    assert Play(Act(Act(d, a), b), []) == Act(Act(d, a), b);
  }

  lemma {:induction false} PlayThree(d: Disk, a: Action, b: Action, c: Action)
    ensures Play(d, [a, b, c]) == Act(Act(Act(d, a), b), c)
  {
    assert [a, b, c][1..] == [b, c];
    PlayTwo(Act(d, a), b, c);
  }

  lemma {:induction false} OpeningPlayed(d: Disk, p: nat, id: Uuid, hash: DataHash, data: seq<byte>)
    requires p !in d.calls && Audio(id, hash) !in d.files
    ensures Play(d, Opening(p, id, hash, data))
         == Disk(d.files, d.counter + 1, d.calls[p := Numbered(id, hash, data, d.counter)], d.fetched + {(id, data)})
  {
    var d1 := Act(d, Begin(p, id, hash));
    assert Opening(p, id, hash, data)[1..] == [Check(p), Fetch(p, data), TakeNumber(p)];
    PlayThree(d1, Check(p), Fetch(p, data), TakeNumber(p));
  }

  lemma {:induction false} ClosingPlayed(d: Disk, p: nat, fate: EnsureFate)
    requires p in d.calls && d.calls[p].Numbered?
    ensures var call := d.calls[p];
            var d' := Play(d, Closing(p, call.data, fate));
            && d'.counter == d.counter && p in d'.calls && d'.calls[p] == Returned
            && d'.files == match fate.write
                           case NotCreated => d.files
                           case CutShort(length) => d.files[call.Temp() := CutTo(call.data, length)]
                           case Written =>
                             if fate.renameWorks then (d.files - {call.Temp()})[Audio(call.id, call.hash) := call.data]
                             else d.files[call.Temp() := call.data]
  {
    var call := d.calls[p];
    var data, temp := call.data, call.Temp();
    if fate.write.NotCreated? {
      assert Play(Act(d, Fail(p)), []) == Act(d, Fail(p));
    } else {
      var n := if fate.write.Written? then |data| else fate.write.length;
      var last := if fate.write.Written? && fate.renameWorks then Rename(p) else Fail(p);
      PlayThree(d, Create(p), WriteOn(p, n), last);
      assert data[..|data|] == data;
      var d2 := Act(Act(d, Create(p)), WriteOn(p, n));
      assert d2.files == d.files[temp := CutTo(data, n)];
      assert d2.files - {temp} == d.files - {temp};
    }
  }

  /** An uninterrupted `ensure` does to the directory and the counter what its small steps do. */
  lemma {:induction false} EnsureIsItsSteps(c: Cache, d: Disk, p: nat, id: Uuid, hash: DataHash, fate: EnsureFate)
    requires d.files == c.files && d.counter == c.counter && p !in d.calls
    ensures var c' := Ensure(c, AchievementRecord(id, Some(hash)), fate).0;
            var d' := Play(d, Steps(c, p, id, hash, fate));
            d'.files == c'.files && d'.counter == c'.counter && p in d'.calls && d'.calls[p] == Returned
  {
    if !fate.statWorks {
      PlayTwo(d, Begin(p, id, hash), Fail(p));
    } else if Audio(id, hash) in c.files {
      PlayTwo(d, Begin(p, id, hash), Check(p));
    } else if !fate.mkdirWorks || fate.retrieval.Err? {
      PlayThree(d, Begin(p, id, hash), Check(p), Fail(p));
    } else {
      var data := fate.retrieval.value;
      PlayConcat(d, Opening(p, id, hash, data), Closing(p, data, fate));
      OpeningPlayed(d, p, id, hash, data);
      ClosingPlayed(Play(d, Opening(p, id, hash, data)), p, fate);
    }
  }

  /**
    A crash at any point and a retry.  Whatever calls were in progress and
    whatever half-written downloads they left, an `ensure` after the restart whose
    environment works leaves the whole retrieval under the final name; it takes
    number 0 again, and with it any download left under that name.
   */
  lemma {:induction false} RetryAfterCrash(d: Disk, id: Uuid, hash: DataHash, fate: EnsureFate)
    requires Audio(id, hash) !in d.files && Delivers(fate)
    ensures Play(d, [Crash] + Steps(Cache(d.files, 0, []), 0, id, hash, fate)).files
         == (d.files - {Download(id, 0)})[Audio(id, hash) := fate.retrieval.value]
  {
    var c := Cache(d.files, 0, []);
    var steps := Steps(c, 0, id, hash, fate);
    assert ([Crash] + steps)[0] == Crash && ([Crash] + steps)[1..] == steps;
    EnsureIsItsSteps(c, Act(d, Crash), 0, id, hash, fate);
  }

  /**
    A download that is pruned between its last write and its rename is lost: the
    call ends, the final name does not appear, and nothing else changes.
   */
  lemma {:induction false} PrunedDownloadIsLost(d: Disk, p: nat)
    requires p in d.calls && d.calls[p].Writing? && d.calls[p].written == |d.calls[p].data|
    ensures var call := d.calls[p];
            Play(d, [Remove(call.Temp()), Rename(p)])
            == d.(files := d.files - {call.Temp()}, calls := d.calls[p := Returned])
  {
    PlayTwo(d, Remove(d.calls[p].Temp()), Rename(p));
  }
}
