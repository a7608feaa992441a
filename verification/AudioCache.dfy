/**
  The audio cache over a directory of files, used by one task: `ensure` caches
  one record, `sync` brings the directory in line with a list of records.
 */
module AudioCaches {
  import opened Basics
  import opened Protocol

  type Uuid = nat
  type DataHash = nat

  datatype AchievementRecord = AchievementRecord(id: Uuid, audioHash: Option<DataHash>)

  /** A file's name: a cached audio file, a download in progress, or any other name. */
  datatype FileName =
    | Audio(id: Uuid, hash: DataHash)
    | Download(id: Uuid, number: nat)
    | Foreign(stem: string, extension: string)

  function Extension(name: FileName): string {
    match name
    case Audio(_, _) => "mp3"
    case Download(_, _) => "download"
    case Foreign(_, extension) => extension
  }

  type Directory = map<FileName, seq<byte>>

  /** The directory, the counter behind download names, and the retrievals asked of the server so far. */
  datatype Cache = Cache(files: Directory, counter: nat, retrievals: seq<Uuid>)

  datatype CacheError = Io | Refused(error: RequestError)

  /** A failed write leaves nothing, or a file holding the first bytes of the data. */
  datatype WriteFate = Written | NotCreated | CutShort(length: nat)

  /** What the file system and the server do during one `ensure`. */
  datatype EnsureFate = EnsureFate(
    statWorks: bool,
    mkdirWorks: bool,
    retrieval: Result<seq<byte>, RequestError>,
    write: WriteFate,
    renameWorks: bool)

  function PathFor(record: AchievementRecord): Option<FileName> {
    match record.audioHash
    case Some(hash) => Some(Audio(record.id, hash))
    case None => None
  }

  function CutTo(data: seq<byte>, length: nat): seq<byte> {
    data[..Min(length, |data|)]
  }

  function Ensure(c: Cache, record: AchievementRecord, fate: EnsureFate)
    : (Cache, Result<Option<FileName>, CacheError>) {
    match PathFor(record)
    case None => (c, Ok(None))
    case Some(path) =>
      if !fate.statWorks then (c, Err(Io))
      else if path in c.files then (c, Ok(Some(path)))
      else if !fate.mkdirWorks then (c, Err(Io))
      else
        var asked := c.(retrievals := c.retrievals + [record.id]);
        match fate.retrieval
        case Err(error) => (asked, Err(Refused(error)))
        case Ok(data) =>
          var temp := Download(record.id, c.counter);
          var counted := asked.(counter := c.counter + 1);
          match fate.write
          case NotCreated => (counted, Err(Io))
          case CutShort(length) => (counted.(files := c.files[temp := CutTo(data, length)]), Err(Io))
          case Written =>
            if !fate.renameWorks then (counted.(files := c.files[temp := data]), Err(Io))
            else (counted.(files := (c.files - {temp})[path := data]), Ok(Some(path)))
  }

  function Expected(records: seq<AchievementRecord>): set<FileName> {
    set i | 0 <= i < |records| && PathFor(records[i]).Some? :: PathFor(records[i]).value
  }

  predicate Prunable(expected: set<FileName>, name: FileName) {
    (Extension(name) == "mp3" && name !in expected) || Extension(name) == "download"
  }

  /** Removes the prunable entries of a listing, except where removal fails. */
  function Prune(files: Directory, expected: set<FileName>, listing: seq<FileName>, stuck: set<FileName>): Directory {
    if listing == [] then files
    else
      var name := listing[0];
      Prune(if Prunable(expected, name) && name !in stuck then files - {name} else files, expected, listing[1..], stuck)
  }

  /** A refusal after which the server keeps the connection open. */
  predicate Skippable(fatal: ErrorResponse -> bool, error: CacheError) {
    error.Refused? && error.error.Error? && !fatal(error.error.error)
  }

  function EnsureAll(fatal: ErrorResponse -> bool, c: Cache, records: seq<AchievementRecord>, fates: nat -> EnsureFate,
          i: nat, skipped: seq<Uuid>): (Cache, Result<seq<Uuid>, CacheError>)
    requires i <= |records|
    decreases |records| - i
  {
    if i == |records| then (c, Ok(skipped))
    else
      var (c', r) := Ensure(c, records[i], fates(i));
      if r.Ok? then EnsureAll(fatal, c', records, fates, i + 1, skipped)
      else if Skippable(fatal, r.error) then EnsureAll(fatal, c', records, fates, i + 1, skipped + [records[i].id])
      else (c', Err(r.error))
  }

  /** What the environment does during one `sync`; the listing may break off after `listed` entries. */
  datatype SyncFate = SyncFate(
    mkdirWorks: bool,
    openWorks: bool,
    listing: seq<FileName>,
    listed: Option<nat>,
    stuck: set<FileName>,
    fates: nat -> EnsureFate)

  /** The listing names the entries of the directory, in any order. */
  ghost predicate Lists(listing: seq<FileName>, files: Directory) {
    forall name :: name in listing <==> name in files
  }

  predicate BreaksOff(f: SyncFate) {
    f.listed.Some? && f.listed.value < |f.listing|
  }

  function Sync(fatal: ErrorResponse -> bool, c: Cache, records: seq<AchievementRecord>, f: SyncFate)
    : (Cache, Result<seq<Uuid>, CacheError>)
  {
    if !f.mkdirWorks || !f.openWorks then (c, Err(Io))
    else if BreaksOff(f) then
      (c.(files := Prune(c.files, Expected(records), f.listing[..f.listed.value], f.stuck)), Err(Io))
    else
      EnsureAll(fatal, c.(files := Prune(c.files, Expected(records), f.listing, f.stuck)), records, f.fates, 0, [])
  }

  // ------------------------------------------------------------------
  // The cache itself.

  class AudioCache {
    var files: Directory
    var counter: nat
    ghost var retrievals: seq<Uuid>

    ghost function Value(): Cache
      reads this
    {
      Cache(files, counter, retrievals)
    }

    constructor (files: Directory)
      ensures Value() == Cache(files, 0, [])
    {
      this.files, counter, retrievals := files, 0, [];
    }

    method EnsureInner(record: AchievementRecord, fate: EnsureFate) returns (r: Result<Option<FileName>, CacheError>)
      modifies this
      ensures (Value(), r) == old(Ensure(Value(), record, fate))
    {
      var path := PathFor(record);
      if path.None? {
        return Ok(None);
      }
      if !fate.statWorks {
        return Err(Io);
      }
      if path.value in files {
        return Ok(path);
      }
      if !fate.mkdirWorks {
        return Err(Io);
      }
      retrievals := retrievals + [record.id];
      if fate.retrieval.Err? {
        return Err(Refused(fate.retrieval.error));
      }
      var data := fate.retrieval.value;
      var temp := Download(record.id, counter);
      counter := counter + 1;
      match fate.write {
        case NotCreated =>
          return Err(Io);
        case CutShort(length) =>
          files := files[temp := CutTo(data, length)];
          return Err(Io);
        case Written =>
          files := files[temp := data];
      }
      if !fate.renameWorks {
        return Err(Io);
      }
      assert files - {temp} == old(files) - {temp};
      files := (files - {temp})[path.value := data];
      return Ok(path);
    }

    method SyncAll(fatal: ErrorResponse -> bool, records: seq<AchievementRecord>, f: SyncFate)
      returns (r: Result<seq<Uuid>, CacheError>)
      modifies this
      ensures (Value(), r) == old(Sync(fatal, Value(), records, f))
    {
      if !f.mkdirWorks || !f.openWorks {
        return Err(Io);
      }
      var expected := Expected(records);
      var entries := if BreaksOff(f) then f.listing[..f.listed.value] else f.listing;
      var i := 0;
      while i < |entries|
        invariant 0 <= i <= |entries|
        invariant Prune(files, expected, entries[i..], f.stuck) == old(Prune(files, expected, entries, f.stuck))
        invariant counter == old(counter) && retrievals == old(retrievals)
      {
        var path := entries[i];
        assert entries[i..][1..] == entries[i + 1..];
        var isStaleAudio := Extension(path) == "mp3" && path !in expected;
        var isLeftover := Extension(path) == "download";
        if (isStaleAudio || isLeftover) && path !in f.stuck {
          files := files - {path};
        }
        i := i + 1;
      }
      if BreaksOff(f) {
        return Err(Io);
      }
      var skipped := [];
      var k := 0;
      while k < |records|
        invariant 0 <= k <= |records|
        invariant EnsureAll(fatal, Value(), records, f.fates, k, skipped) == old(Sync(fatal, Value(), records, f))
      {
        var outcome := EnsureInner(records[k], f.fates(k));
        if outcome.Err? {
          if !Skippable(fatal, outcome.error) {
            return Err(outcome.error);
          }
          skipped := skipped + [records[k].id];
        }
        k := k + 1;
      }
      return Ok(skipped);
    }
  }

  // ------------------------------------------------------------------
  // What one `ensure` achieves.

  /** Names are keyed by achievement and hash: a new hash is a new name, and no hash is no name. */
  lemma {:induction false} PathsAreKeyed(a: AchievementRecord, b: AchievementRecord)
    ensures PathFor(a).None? <==> a.audioHash.None?
    ensures PathFor(a).Some? ==> Extension(PathFor(a).value) == "mp3"
    ensures PathFor(a).Some? && PathFor(a) == PathFor(b) <==> a.audioHash.Some? && a == b
  {
  }

  /** The retrieval is answered and the bytes reach the final name. */
  predicate Delivers(fate: EnsureFate) {
    fate.statWorks && fate.mkdirWorks && fate.retrieval.Ok? && fate.write.Written? && fate.renameWorks
  }

  /** The error of an `ensure` that fails. */
  function Failure(fate: EnsureFate): CacheError {
    if fate.statWorks && fate.mkdirWorks && fate.retrieval.Err? then Refused(fate.retrieval.error) else Io
  }

  /** The server is asked for the audio. */
  predicate Asks(files: Directory, record: AchievementRecord, fate: EnsureFate) {
    && record.audioHash.Some? && Audio(record.id, record.audioHash.value) !in files
    && fate.statWorks && fate.mkdirWorks
  }

  /** Of the other files none is touched; a failure leaves at most one download, with the first bytes of the data. */
  ghost predicate TouchesOnly(c: Cache, c': Cache, record: AchievementRecord, fate: EnsureFate) {
    var temp := Download(record.id, c.counter);
    && (forall name :: name != temp && Some(name) != PathFor(record) ==>
         (name in c'.files <==> name in c.files) && (name in c.files ==> c'.files[name] == c.files[name]))
    && (temp in c'.files ==>
         || (temp in c.files && c'.files[temp] == c.files[temp])
         || (fate.retrieval.Ok? && !Delivers(fate) && c'.files[temp] <= fate.retrieval.value))
  }

  /**
    One `ensure`, for every cache, record and environment.  It succeeds exactly if
    the record has no audio, or its file can be looked up and is there or is
    delivered; then it returns the record's own path, none exactly without audio,
    and the file named is in the directory, as it was or as retrieved.
   */
  lemma {:induction false} EnsureIsExact(c: Cache, record: AchievementRecord, fate: EnsureFate)
    ensures var (c', r) := Ensure(c, record, fate);
            var audio := record.audioHash.Some?;
            var path := Audio(record.id, if audio then record.audioHash.value else 0);
            && (r.Ok? <==> !audio || (fate.statWorks && (path in c.files || Delivers(fate))))
            && (r.Ok? ==> r.value == if audio then Some(path) else None)
            && (r.Ok? && audio ==>
                 path in c'.files && c'.files[path] == if path in c.files then c.files[path] else fate.retrieval.value)
            && (r.Err? ==> r.error == Failure(fate) && (path in c'.files <==> path in c.files))
            && (path in c.files ==> path in c'.files && c'.files[path] == c.files[path])
            && (!audio ==> c' == c)
            && c'.retrievals == (if Asks(c.files, record, fate) then c.retrievals + [record.id] else c.retrievals)
            && c'.counter == (if Asks(c.files, record, fate) && fate.retrieval.Ok? then c.counter + 1 else c.counter)
            && TouchesOnly(c, c', record, fate)
  {
  }

  // ------------------------------------------------------------------
  // What a sync achieves.

  lemma {:induction false} PruneMeans(files: Directory, expected: set<FileName>, listing: seq<FileName>,
          stuck: set<FileName>, name: FileName)
    ensures var files' := Prune(files, expected, listing, stuck);
            && (name in files' <==> name in files && !(name in listing && Prunable(expected, name) && name !in stuck))
            && (name in files' ==> files'[name] == files[name])
    decreases listing
  {
    if listing != [] {
      var first := listing[0];
      var next := if Prunable(expected, first) && first !in stuck then files - {first} else files;
      PruneMeans(next, expected, listing[1..], stuck, name);
    }
  }

  /** A retrieval for record `i` returned these bytes. */
  ghost predicate Retrieved(records: seq<AchievementRecord>, fates: nat -> EnsureFate, id: Uuid, data: seq<byte>) {
    exists i: nat :: i < |records| && records[i].id == id && fates(i).retrieval == Ok(data)
  }

  /** Ensuring never touches a file that is there, and adds only whole files under final names of the list. */
  ghost predicate Grows(records: seq<AchievementRecord>, fates: nat -> EnsureFate, c: Cache, c': Cache) {
    && (forall name :: name in c.files && !name.Download? ==> name in c'.files && c'.files[name] == c.files[name])
    && (forall name :: name in c'.files && !name.Download? && name !in c.files ==>
         && name in Expected(records)
         && Retrieved(records, fates, name.id, c'.files[name]))
  }

  lemma {:induction false} EnsureGrows(c: Cache, records: seq<AchievementRecord>, fates: nat -> EnsureFate, i: nat)
    requires i < |records|
    ensures var (c', r) := Ensure(c, records[i], fates(i));
            && Grows(records, fates, c, c')
            && (r.Ok? && PathFor(records[i]).Some? ==> PathFor(records[i]).value in c'.files)
  {
    var path := PathFor(records[i]);
    if path.Some? {
      assert path.value in Expected(records);
    }
  }

  lemma {:induction false} GrowsTransitive(records: seq<AchievementRecord>, fates: nat -> EnsureFate, a: Cache,
          b: Cache, c: Cache)
    requires Grows(records, fates, a, b) && Grows(records, fates, b, c)
    ensures Grows(records, fates, a, c)
  {
  }

  lemma {:induction false} EnsureAllGrows(fatal: ErrorResponse -> bool, c: Cache, records: seq<AchievementRecord>,
          fates: nat -> EnsureFate, i: nat, skipped: seq<Uuid>)
    requires i <= |records|
    ensures Grows(records, fates, c, EnsureAll(fatal, c, records, fates, i, skipped).0)
    decreases |records| - i
  {
    if i < |records| {
      var (c1, r1) := Ensure(c, records[i], fates(i));
      EnsureGrows(c, records, fates, i);
      if r1.Ok? || Skippable(fatal, r1.error) {
        var skipped1 := if r1.Ok? then skipped else skipped + [records[i].id];
        EnsureAllGrows(fatal, c1, records, fates, i + 1, skipped1);
        GrowsTransitive(records, fates, c, c1, EnsureAll(fatal, c1, records, fates, i + 1, skipped1).0);
      }
    }
  }

  predicate CachedOrSkipped(record: AchievementRecord, files: Directory, skipped: seq<Uuid>) {
    PathFor(record).Some? ==> PathFor(record).value in files || record.id in skipped
  }

  /** From one cache to a later one: no download is new, and those whose numbers were not used are kept. */
  ghost predicate CleansUp(c: Cache, c': Cache) {
    && c.counter <= c'.counter
    && (forall name :: name in c'.files && name.Download? ==> name in c.files)
    && (forall name :: name in c.files && name.Download? && !(c.counter <= name.number < c'.counter) ==>
         name in c'.files && c'.files[name] == c.files[name])
  }

  lemma {:induction false} EnsureCleans(c: Cache, record: AchievementRecord, fate: EnsureFate)
    ensures var (c', r) := Ensure(c, record, fate);
            r.Ok? || r.error.Refused? ==> CleansUp(c, c')
  {
  }

  lemma {:induction false} CleansUpTransitive(a: Cache, b: Cache, c: Cache)
    requires CleansUp(a, b) && CleansUp(b, c)
    ensures CleansUp(a, c)
  {
  }

  /** An `Ok` leaves no download behind that was not there. */
  lemma {:induction false} EnsureAllCleans(fatal: ErrorResponse -> bool, c: Cache, records: seq<AchievementRecord>,
          fates: nat -> EnsureFate, i: nat, skipped: seq<Uuid>)
    requires i <= |records|
    ensures var (c', r) := EnsureAll(fatal, c, records, fates, i, skipped);
            r.Ok? ==> CleansUp(c, c')
    decreases |records| - i
  {
    if i < |records| {
      var (c1, r1) := Ensure(c, records[i], fates(i));
      if r1.Ok? || Skippable(fatal, r1.error) {
        var skipped1 := if r1.Ok? then skipped else skipped + [records[i].id];
        var (c', r) := EnsureAll(fatal, c1, records, fates, i + 1, skipped1);
        EnsureCleans(c, records[i], fates(i));
        EnsureAllCleans(fatal, c1, records, fates, i + 1, skipped1);
        if r.Ok? {
          CleansUpTransitive(c, c1, c');
        }
      }
    }
  }

  /** An `Ok` leaves record `j` cached or skipped, once its turn has come. */
  lemma {:induction false} EnsureAllCaches(fatal: ErrorResponse -> bool, c: Cache, records: seq<AchievementRecord>,
          fates: nat -> EnsureFate, i: nat, skipped: seq<Uuid>, j: nat)
    requires i <= j < |records|
    ensures var (c', r) := EnsureAll(fatal, c, records, fates, i, skipped);
            r.Ok? ==> CachedOrSkipped(records[j], c'.files, r.value)
    decreases |records| - i
  {
    var (c1, r1) := Ensure(c, records[i], fates(i));
    if r1.Ok? || Skippable(fatal, r1.error) {
      var skipped1 := if r1.Ok? then skipped else skipped + [records[i].id];
      if i < j {
        EnsureAllCaches(fatal, c1, records, fates, i + 1, skipped1, j);
      } else {
        EnsureGrows(c, records, fates, i);
        EnsureAllGrows(fatal, c1, records, fates, i + 1, skipped1);
        SkippedGrows(fatal, c1, records, fates, i + 1, skipped1);
        var r := EnsureAll(fatal, c1, records, fates, i + 1, skipped1).1;
        assert r.Ok? && !r1.Ok? ==> r.value[|skipped|] == records[i].id;
      }
    }
  }

  lemma {:induction false} SkippedGrows(fatal: ErrorResponse -> bool, c: Cache, records: seq<AchievementRecord>,
          fates: nat -> EnsureFate, i: nat, skipped: seq<Uuid>)
    requires i <= |records|
    ensures var r := EnsureAll(fatal, c, records, fates, i, skipped).1;
            r.Ok? ==> skipped <= r.value
    decreases |records| - i
  {
    if i < |records| {
      var (c1, r1) := Ensure(c, records[i], fates(i));
      if r1.Ok? || Skippable(fatal, r1.error) {
        SkippedGrows(fatal, c1, records, fates, i + 1, if r1.Ok? then skipped else skipped + [records[i].id]);
      }
    }
  }

  // ------------------------------------------------------------------
  // When a sync succeeds, told from its environment alone.

  /** The path was there from the start, or one of the first `k` records brought it. */
  ghost predicate CachedBy(files: Directory, records: seq<AchievementRecord>, fates: nat -> EnsureFate, k: nat,
          path: FileName)
    requires k <= |records|
  {
    path in files || exists j :: 0 <= j < k && PathFor(records[j]) == Some(path) && Delivers(fates(j))
  }

  /** The server answers with an error, and not one after which it closes the connection. */
  predicate Declines(fatal: ErrorResponse -> bool, retrieval: Result<seq<byte>, RequestError>) {
    retrieval.Err? && retrieval.error.Error? && !fatal(retrieval.error.error)
  }

  /** Record `k` has its audio asked for, and the server refuses it without closing the connection. */
  ghost predicate Refuses(fatal: ErrorResponse -> bool, files: Directory, records: seq<AchievementRecord>,
          fates: nat -> EnsureFate, k: nat)
    requires k < |records|
  {
    && PathFor(records[k]).Some? && !CachedBy(files, records, fates, k, PathFor(records[k]).value)
    && fates(k).statWorks && fates(k).mkdirWorks
    && Declines(fatal, fates(k).retrieval)
  }

  /** Record `k` does not end the sync. */
  ghost predicate Passes(fatal: ErrorResponse -> bool, files: Directory, records: seq<AchievementRecord>,
          fates: nat -> EnsureFate, k: nat)
    requires k < |records|
  {
    PathFor(records[k]).Some? ==>
      && fates(k).statWorks
      && (|| CachedBy(files, records, fates, k, PathFor(records[k]).value)
          || Delivers(fates(k))
          || Refuses(fatal, files, records, fates, k))
  }

  /** The cache holds, of the paths of the records, those brought by the first `i` records or there before. */
  ghost predicate Tracks(files: Directory, records: seq<AchievementRecord>, fates: nat -> EnsureFate, i: nat, c: Cache)
    requires i <= |records|
  {
    forall path :: path in Expected(records) ==> (path in c.files <==> CachedBy(files, records, fates, i, path))
  }

  lemma {:induction false} CachedByNext(files: Directory, records: seq<AchievementRecord>, fates: nat -> EnsureFate,
          i: nat, path: FileName)
    requires i < |records|
    ensures CachedBy(files, records, fates, i + 1, path) <==>
            CachedBy(files, records, fates, i, path) || (PathFor(records[i]) == Some(path) && Delivers(fates(i)))
  {
  }

  /** One record: it passes exactly if the loop goes on, and is refused exactly if it is skipped. */
  lemma {:induction false} EnsureTracks(fatal: ErrorResponse -> bool, files: Directory, c: Cache,
          records: seq<AchievementRecord>, fates: nat -> EnsureFate, i: nat)
    requires i < |records| && Tracks(files, records, fates, i, c)
    ensures var (c', r) := Ensure(c, records[i], fates(i));
            && (Passes(fatal, files, records, fates, i) <==> r.Ok? || Skippable(fatal, r.error))
            && (Refuses(fatal, files, records, fates, i) <==> r.Err? && Skippable(fatal, r.error))
            && (!Passes(fatal, files, records, fates, i) ==> r == Err(Failure(fates(i))))
            && (Passes(fatal, files, records, fates, i) ==> Tracks(files, records, fates, i + 1, c'))
  {
    var c' := Ensure(c, records[i], fates(i)).0;
    if PathFor(records[i]).Some? {
      assert PathFor(records[i]).value in Expected(records);
    }
    if Passes(fatal, files, records, fates, i) {
      forall path | path in Expected(records)
        ensures path in c'.files <==> CachedBy(files, records, fates, i + 1, path)
      {
        CachedByNext(files, records, fates, i, path);
      }
    }
  }

  /** Every record from `i` on passes. */
  ghost predicate AllPass(fatal: ErrorResponse -> bool, files: Directory, records: seq<AchievementRecord>,
          fates: nat -> EnsureFate, i: nat, k: nat)
    requires k <= |records|
  {
    forall j :: i <= j < k ==> Passes(fatal, files, records, fates, j)
  }

  /** The achievements whose audio is asked for and refused, from record `i` on, in order. */
  ghost function RefusedIds(fatal: ErrorResponse -> bool, files: Directory, records: seq<AchievementRecord>,
          fates: nat -> EnsureFate, i: nat): seq<Uuid>
    requires i <= |records|
    decreases |records| - i
  {
    if i == |records| then []
    else
      (if Refuses(fatal, files, records, fates, i) then [records[i].id] else []) +
      RefusedIds(fatal, files, records, fates, i + 1)
  }

  lemma {:induction false} EnsureAllIsExact(fatal: ErrorResponse -> bool, files: Directory, c: Cache,
          records: seq<AchievementRecord>, fates: nat -> EnsureFate, i: nat, skipped: seq<Uuid>)
    requires i <= |records| && Tracks(files, records, fates, i, c)
    ensures EnsureAll(fatal, c, records, fates, i, skipped).1.Ok? <==>
            AllPass(fatal, files, records, fates, i, |records|)
    decreases |records| - i
  {
    if i < |records| {
      EnsureTracks(fatal, files, c, records, fates, i);
      var (c1, r1) := Ensure(c, records[i], fates(i));
      if Passes(fatal, files, records, fates, i) {
        var skipped1 := if r1.Ok? then skipped else skipped + [records[i].id];
        EnsureAllIsExact(fatal, files, c1, records, fates, i + 1, skipped1);
      }
    }
  }

  /** The first record that does not pass ends the loop with its error. */
  lemma {:induction false} EnsureAllFails(fatal: ErrorResponse -> bool, files: Directory, c: Cache,
          records: seq<AchievementRecord>, fates: nat -> EnsureFate, i: nat, skipped: seq<Uuid>, k: nat)
    requires i <= k < |records| && Tracks(files, records, fates, i, c)
    requires AllPass(fatal, files, records, fates, i, k) && !Passes(fatal, files, records, fates, k)
    ensures EnsureAll(fatal, c, records, fates, i, skipped).1 == Err(Failure(fates(k)))
    decreases k - i
  {
    EnsureTracks(fatal, files, c, records, fates, i);
    if i < k {
      assert Passes(fatal, files, records, fates, i);
      var (c1, r1) := Ensure(c, records[i], fates(i));
      EnsureAllFails(fatal, files, c1, records, fates, i + 1, if r1.Ok? then skipped else skipped + [records[i].id], k);
    }
  }

  /** An `Ok` adds exactly the refused achievements to the skipped list. */
  lemma {:induction false} EnsureAllSkips(fatal: ErrorResponse -> bool, files: Directory, c: Cache,
          records: seq<AchievementRecord>, fates: nat -> EnsureFate, i: nat, skipped: seq<Uuid>)
    requires i <= |records| && Tracks(files, records, fates, i, c)
    ensures var r := EnsureAll(fatal, c, records, fates, i, skipped).1;
            r.Ok? ==> r.value == skipped + RefusedIds(fatal, files, records, fates, i)
    decreases |records| - i
  {
    if i < |records| {
      EnsureTracks(fatal, files, c, records, fates, i);
      var (c1, r1) := Ensure(c, records[i], fates(i));
      if Passes(fatal, files, records, fates, i) {
        var skipped1 := if r1.Ok? then skipped else skipped + [records[i].id];
        EnsureAllSkips(fatal, files, c1, records, fates, i + 1, skipped1);
        var rest := RefusedIds(fatal, files, records, fates, i + 1);
        assert skipped + ([records[i].id] + rest) == (skipped + [records[i].id]) + rest;
        assert skipped + ([] + rest) == skipped + rest;
      }
    }
  }

  lemma {:induction false} PrunedTracks(c: Cache, records: seq<AchievementRecord>, f: SyncFate)
    ensures Tracks(c.files, records, f.fates, 0, c.(files := Prune(c.files, Expected(records), f.listing, f.stuck)))
  {
    forall path | path in Expected(records)
      ensures path in Prune(c.files, Expected(records), f.listing, f.stuck) <==>
              CachedBy(c.files, records, f.fates, 0, path)
    {
      PruneMeans(c.files, Expected(records), f.listing, f.stuck, path);
    }
  }

  /**
    One refused record does not stall the rest: a sync returns `Ok` if and only
    if the directory can be made, opened and listed to its end and every record
    with audio is cached when its turn comes, delivered, or refused without the
    connection closing.
   */
  lemma {:induction false} SyncSucceeds(fatal: ErrorResponse -> bool, c: Cache, records: seq<AchievementRecord>,
          f: SyncFate)
    ensures Sync(fatal, c, records, f).1.Ok? <==>
            f.mkdirWorks && f.openWorks && !BreaksOff(f) && AllPass(fatal, c.files, records, f.fates, 0, |records|)
  {
    PrunedTracks(c, records, f);
    var pruned := c.(files := Prune(c.files, Expected(records), f.listing, f.stuck));
    EnsureAllIsExact(fatal, c.files, pruned, records, f.fates, 0, []);
  }

  /**
    The first record that does not pass ends the sync with its own error, whatever
    was downloaded or skipped before it.
   */
  lemma {:induction false} FailureStops(fatal: ErrorResponse -> bool, c: Cache, records: seq<AchievementRecord>,
          f: SyncFate, k: nat)
    requires f.mkdirWorks && f.openWorks && !BreaksOff(f)
    requires k < |records|
    requires AllPass(fatal, c.files, records, f.fates, 0, k) && !Passes(fatal, c.files, records, f.fates, k)
    ensures Sync(fatal, c, records, f).1 == Err(Failure(f.fates(k)))
  {
    PrunedTracks(c, records, f);
    var pruned := c.(files := Prune(c.files, Expected(records), f.listing, f.stuck));
    EnsureAllFails(fatal, c.files, pruned, records, f.fates, 0, [], k);
  }

  /** A successful sync reports exactly the achievements whose audio was asked for and refused, in order. */
  lemma {:induction false} SkippedAreRefused(fatal: ErrorResponse -> bool, c: Cache, records: seq<AchievementRecord>,
          f: SyncFate)
    ensures var r := Sync(fatal, c, records, f).1;
            r.Ok? ==> r.value == RefusedIds(fatal, c.files, records, f.fates, 0)
  {
    PrunedTracks(c, records, f);
    var pruned := c.(files := Prune(c.files, Expected(records), f.listing, f.stuck));
    EnsureAllSkips(fatal, c.files, pruned, records, f.fates, 0, []);
  }

  // ------------------------------------------------------------------
  // What a successful sync leaves behind.

  /** A file the sync tried to remove and could not. */
  ghost predicate Left(records: seq<AchievementRecord>, f: SyncFate, c: Cache, name: FileName) {
    name in c.files && Prunable(Expected(records), name) && name in f.stuck
  }

  /** The `.mp3` files are exactly the expected ones. */
  ghost predicate InLine(records: seq<AchievementRecord>, files: Directory) {
    forall name :: name in files && Extension(name) == "mp3" <==> name in Expected(records)
  }

  /** What a successful sync makes of the files that were there, and which are new. */
  ghost predicate TidiedUp(records: seq<AchievementRecord>, f: SyncFate, c: Cache, c': Cache) {
    && (forall name: FileName :: !name.Download? && Prunable(Expected(records), name) ==>
         (name in c'.files <==> Left(records, f, c, name)))
    && (forall name: FileName :: name.Download? && name in c'.files ==> Left(records, f, c, name))
    && (forall name: FileName :: name.Download? && Left(records, f, c, name) ==>
         name in c'.files || c.counter <= name.number < c'.counter)
    && (forall name :: name in c.files && !Prunable(Expected(records), name) ==> name in c'.files)
    && (forall name :: name in c.files && name in c'.files && !name.Download? ==> c'.files[name] == c.files[name])
    && (forall name :: name in c'.files && name !in c.files ==>
         name in Expected(records) && Retrieved(records, f.fates, name.id, c'.files[name]))
  }

  /** The directory after a successful sync. */
  ghost predicate Synced(records: seq<AchievementRecord>, f: SyncFate, c: Cache, c': Cache, skipped: seq<Uuid>) {
    && (forall j :: 0 <= j < |records| ==> CachedOrSkipped(records[j], c'.files, skipped))
    && TidiedUp(records, f, c, c')
  }

  /** The files without the stale ones whose removal worked. */
  ghost predicate PrunedFrom(c: Cache, records: seq<AchievementRecord>, f: SyncFate, files: Directory) {
    forall name :: && (name in files <==> name in c.files && (Prunable(Expected(records), name) ==> name in f.stuck))
                   && (name in files ==> files[name] == c.files[name])
  }

  lemma {:induction false} PrunedAre(c: Cache, records: seq<AchievementRecord>, f: SyncFate)
    requires Lists(f.listing, c.files)
    ensures PrunedFrom(c, records, f, Prune(c.files, Expected(records), f.listing, f.stuck))
  {
    var files := Prune(c.files, Expected(records), f.listing, f.stuck);
    forall name
      ensures name in files <==> name in c.files && (Prunable(Expected(records), name) ==> name in f.stuck)
      ensures name in files ==> files[name] == c.files[name]
    {
      PruneMeans(c.files, Expected(records), f.listing, f.stuck, name);
    }
  }

  lemma {:induction false} GrownIsTidy(records: seq<AchievementRecord>, f: SyncFate, c: Cache, pruned: Cache, c': Cache)
    requires PrunedFrom(c, records, f, pruned.files) && pruned.counter == c.counter
    requires Grows(records, f.fates, pruned, c') && CleansUp(pruned, c')
    ensures TidiedUp(records, f, c, c')
  {
  }

  /**
    A sync that returns `Ok` leaves every record with audio cached or reported
    as skipped. A stale `.mp3` or `.download` is left if and only if it was
    there and its removal failed, except that a leftover download may also be
    overwritten and renamed away. Every other file is as it was, and what is
    new is a whole download.
   */
  lemma {:induction false} SyncConverges(fatal: ErrorResponse -> bool, c: Cache, records: seq<AchievementRecord>,
          f: SyncFate)
    requires Lists(f.listing, c.files)
    ensures var (c', r) := Sync(fatal, c, records, f);
            r.Ok? ==> Synced(records, f, c, c', r.value)
  {
    var (c', r) := Sync(fatal, c, records, f);
    if r.Ok? {
      var pruned := c.(files := Prune(c.files, Expected(records), f.listing, f.stuck));
      assert TidiedUp(records, f, c, c') by {
        PrunedAre(c, records, f);
        EnsureAllGrows(fatal, pruned, records, f.fates, 0, []);
        EnsureAllCleans(fatal, pruned, records, f.fates, 0, []);
        GrownIsTidy(records, f, c, pruned, c');
      }
      forall j | 0 <= j < |records|
        ensures CachedOrSkipped(records[j], c'.files, r.value)
      {
        EnsureAllCaches(fatal, pruned, records, f.fates, 0, [], j);
      }
    }
  }

  /** With nothing skipped, the `.mp3` files are the expected ones exactly if no removal of a stale one failed. */
  lemma {:induction false} InLineExactly(fatal: ErrorResponse -> bool, c: Cache, records: seq<AchievementRecord>,
          f: SyncFate)
    requires Lists(f.listing, c.files) && Sync(fatal, c, records, f).1 == Ok([])
    ensures InLine(records, Sync(fatal, c, records, f).0.files) <==>
            forall name :: Extension(name) == "mp3" ==> !Left(records, f, c, name)
  {
    SyncConverges(fatal, c, records, f);
    var c' := Sync(fatal, c, records, f).0;
    forall name | name in Expected(records)
      ensures name in c'.files
    {
      var j :| 0 <= j < |records| && PathFor(records[j]) == Some(name);
      assert CachedOrSkipped(records[j], c'.files, []);
    }
    forall name | Extension(name) == "mp3"
      ensures name in c'.files && name !in Expected(records) <==> Left(records, f, c, name)
    {
    }
  }

  /** A stale file whose removal fails stays behind a sync that reports success. */
  lemma {:induction false} StuckExample(fatal: ErrorResponse -> bool, fates: nat -> EnsureFate)
    ensures var stale := Foreign("stale", "mp3");
            var c := Cache(map[stale := []], 0, []);
            Sync(fatal, c, [], SyncFate(true, true, [stale], None, {stale}, fates)) == (c, Ok([]))
  {
    var stale := Foreign("stale", "mp3");
    assert Prune(map[stale := []], Expected([]), [stale][1..], {stale}) == map[stale := []];
  }

  /**
    Whatever goes wrong, no sync removes or changes a cached file that a record
    refers to, nor a file of another kind.
   */
  lemma {:induction false} SyncKeeps(fatal: ErrorResponse -> bool, c: Cache, records: seq<AchievementRecord>,
          f: SyncFate, name: FileName)
    requires name in c.files && !Prunable(Expected(records), name)
    ensures var c' := Sync(fatal, c, records, f).0;
            name in c'.files && c'.files[name] == c.files[name]
  {
    var expected := Expected(records);
    PruneMeans(c.files, expected, f.listing, f.stuck, name);
    if BreaksOff(f) {
      PruneMeans(c.files, expected, f.listing[..f.listed.value], f.stuck, name);
    }
    EnsureAllGrows(fatal, c.(files := Prune(c.files, expected, f.listing, f.stuck)), records, f.fates, 0, []);
  }

  /**
    A listing that breaks off ends the sync, after the stale files it had come to
    are removed and before anything is asked for.
   */
  lemma {:induction false} BrokenListingEnds(fatal: ErrorResponse -> bool, c: Cache, records: seq<AchievementRecord>,
          f: SyncFate, name: FileName)
    requires f.mkdirWorks && f.openWorks && f.listed.Some? && f.listed.value < |f.listing|
    ensures var (c', r) := Sync(fatal, c, records, f);
            && r == Err(Io) && c'.counter == c.counter && c'.retrievals == c.retrievals
            && (name in c'.files <==>
                 && name in c.files
                 && !(name in f.listing[..f.listed.value] && Prunable(Expected(records), name) && name !in f.stuck))
            && (name in c'.files ==> c'.files[name] == c.files[name])
  {
    PruneMeans(c.files, Expected(records), f.listing[..f.listed.value], f.stuck, name);
  }

  // ------------------------------------------------------------------
  // Names and bytes.

  /** Every cached audio file has the hash in its name, under whatever hash function the server uses. */
  ghost predicate Matching(digest: seq<byte> -> DataHash, files: Directory) {
    forall name :: name in files && name.Audio? ==> digest(files[name]) == name.hash
  }

  /** Record `k` is the one that brings its audio into the cache. */
  ghost predicate Fetches(files: Directory, records: seq<AchievementRecord>, fates: nat -> EnsureFate, k: nat)
    requires k < |records|
  {
    && PathFor(records[k]).Some? && !CachedBy(files, records, fates, k, PathFor(records[k]).value)
    && Delivers(fates(k))
  }

  /** The server's bytes for record `k`, if they are fetched, have the hash the record announces. */
  ghost predicate HonestBytes(digest: seq<byte> -> DataHash, files: Directory, records: seq<AchievementRecord>,
          fates: nat -> EnsureFate, k: nat)
    requires k < |records|
  {
    Fetches(files, records, fates, k) ==> digest(fates(k).retrieval.value) == records[k].audioHash.value
  }

  lemma {:induction false} EnsureMatches(digest: seq<byte> -> DataHash, files: Directory, c: Cache,
          records: seq<AchievementRecord>, fates: nat -> EnsureFate, i: nat)
    requires i < |records| && Tracks(files, records, fates, i, c) && Matching(digest, c.files)
    ensures Matching(digest, Ensure(c, records[i], fates(i)).0.files) <==> HonestBytes(digest, files, records, fates, i)
  {
    var path := PathFor(records[i]);
    if path.Some? {
      assert path.value in Expected(records);
      if Fetches(files, records, fates, i) {
        assert Ensure(c, records[i], fates(i)).0.files[path.value] == fates(i).retrieval.value;
      }
    }
  }

  /** A mismatch is never repaired: a file that is there is not looked at again. */
  lemma {:induction false} MismatchStays(digest: seq<byte> -> DataHash, fatal: ErrorResponse -> bool, c: Cache,
          records: seq<AchievementRecord>, fates: nat -> EnsureFate, i: nat, skipped: seq<Uuid>)
    requires i <= |records| && !Matching(digest, c.files)
    ensures !Matching(digest, EnsureAll(fatal, c, records, fates, i, skipped).0.files)
  {
    var name :| name in c.files && name.Audio? && digest(c.files[name]) != name.hash;
    EnsureAllGrows(fatal, c, records, fates, i, skipped);
    assert digest(EnsureAll(fatal, c, records, fates, i, skipped).0.files[name]) != name.hash;
  }

  /** The records whose turn comes, from `i` on, get honest bytes. */
  ghost predicate HonestUpToFailure(digest: seq<byte> -> DataHash, fatal: ErrorResponse -> bool, files: Directory,
          records: seq<AchievementRecord>, fates: nat -> EnsureFate, i: nat)
  {
    forall k :: i <= k < |records| && AllPass(fatal, files, records, fates, i, k) ==>
      HonestBytes(digest, files, records, fates, k)
  }

  lemma {:induction false} HonestNext(digest: seq<byte> -> DataHash, fatal: ErrorResponse -> bool, files: Directory,
          records: seq<AchievementRecord>, fates: nat -> EnsureFate, i: nat)
    requires i < |records|
    ensures HonestUpToFailure(digest, fatal, files, records, fates, i) <==>
            && HonestBytes(digest, files, records, fates, i)
            && (Passes(fatal, files, records, fates, i) ==>
                 HonestUpToFailure(digest, fatal, files, records, fates, i + 1))
  {
    assert AllPass(fatal, files, records, fates, i, i);
    forall k | i < k < |records|
      ensures AllPass(fatal, files, records, fates, i, k) <==>
              Passes(fatal, files, records, fates, i) && AllPass(fatal, files, records, fates, i + 1, k)
    {
    }
  }

  lemma {:induction false} EnsureAllMatches(digest: seq<byte> -> DataHash, fatal: ErrorResponse -> bool,
          files: Directory, c: Cache, records: seq<AchievementRecord>, fates: nat -> EnsureFate, i: nat,
          skipped: seq<Uuid>)
    requires i <= |records| && Tracks(files, records, fates, i, c) && Matching(digest, c.files)
    ensures Matching(digest, EnsureAll(fatal, c, records, fates, i, skipped).0.files) <==>
            HonestUpToFailure(digest, fatal, files, records, fates, i)
    decreases |records| - i
  {
    if i < |records| {
      var (c1, r1) := Ensure(c, records[i], fates(i));
      var skipped1 := if r1.Ok? then skipped else skipped + [records[i].id];
      EnsureTracks(fatal, files, c, records, fates, i);
      EnsureMatches(digest, files, c, records, fates, i);
      HonestNext(digest, fatal, files, records, fates, i);
      if Passes(fatal, files, records, fates, i) {
        if Matching(digest, c1.files) {
          EnsureAllMatches(digest, fatal, files, c1, records, fates, i + 1, skipped1);
        } else {
          MismatchStays(digest, fatal, c1, records, fates, i + 1, skipped1);
        }
      }
    }
  }

  lemma {:induction false} PrunedMatches(digest: seq<byte> -> DataHash, files: Directory, expected: set<FileName>,
          listing: seq<FileName>, stuck: set<FileName>)
    requires Matching(digest, files)
    ensures Matching(digest, Prune(files, expected, listing, stuck))
  {
    var files' := Prune(files, expected, listing, stuck);
    forall name | name in files' && name.Audio?
      ensures digest(files'[name]) == name.hash
    {
      PruneMeans(files, expected, listing, stuck, name);
    }
  }

  /** The sync comes to its records. */
  predicate ComesToRecords(f: SyncFate) {
    f.mkdirWorks && f.openWorks && !BreaksOff(f)
  }

  /**
    A file's name announces a hash that nothing checks: a sync, however it ends,
    keeps names and bytes matching exactly if everything it fetched did match, up
    to the record that ends it.
   */
  lemma {:induction false} NamesMatchExactly(digest: seq<byte> -> DataHash, fatal: ErrorResponse -> bool, c: Cache,
          records: seq<AchievementRecord>, f: SyncFate)
    requires Matching(digest, c.files)
    ensures Matching(digest, Sync(fatal, c, records, f).0.files) <==>
            (ComesToRecords(f) ==> HonestUpToFailure(digest, fatal, c.files, records, f.fates, 0))
  {
    var files := Prune(c.files, Expected(records), f.listing, f.stuck);
    PrunedMatches(digest, c.files, Expected(records), f.listing, f.stuck);
    if ComesToRecords(f) {
      PrunedTracks(c, records, f);
      EnsureAllMatches(digest, fatal, c.files, c.(files := files), records, f.fates, 0, []);
    } else if BreaksOff(f) {
      PrunedMatches(digest, c.files, Expected(records), f.listing[..f.listed.value], f.stuck);
    }
  }

  /** An empty cache, one record, and bytes with another hash: the call succeeds and the name is wrong. */
  lemma {:induction false} MismatchExample(digest: seq<byte> -> DataHash, data: seq<byte>)
    ensures var record := AchievementRecord(0, Some(digest(data) + 1));
            var (c', r) := Ensure(Cache(map[], 0, []), record, EnsureFate(true, true, Ok(data), Written, true));
            r == Ok(PathFor(record)) && !Matching(digest, c'.files)
  {
    var path := Audio(0, digest(data) + 1);
    var record := AchievementRecord(0, Some(digest(data) + 1));
    var c' := Ensure(Cache(map[], 0, []), record, EnsureFate(true, true, Ok(data), Written, true)).0;
    assert path in c'.files && c'.files[path] == data;
  }

  // ------------------------------------------------------------------
  // Syncing again.

  lemma {:induction false} NothingToEnsure(fatal: ErrorResponse -> bool, c: Cache, records: seq<AchievementRecord>,
          fates: nat -> EnsureFate, i: nat, skipped: seq<Uuid>)
    requires i <= |records| && forall name :: name in Expected(records) ==> name in c.files
    ensures EnsureAll(fatal, c, records, fates, i, skipped).0 == c
    decreases |records| - i
  {
    if i < |records| {
      var path := PathFor(records[i]);
      if path.Some? {
        assert path.value in Expected(records);
      }
      NothingToEnsure(fatal, c, records, fates, i + 1, skipped);
    }
  }

  lemma {:induction false} PermutationExpects(a: seq<AchievementRecord>, b: seq<AchievementRecord>)
    requires multiset(a) == multiset(b)
    ensures Expected(a) == Expected(b)
  {
    forall name
      ensures name in Expected(a) <==> name in Expected(b)
    {
      if name in Expected(a) {
        ExpectedMember(a, b, name);
      }
      if name in Expected(b) {
        ExpectedMember(b, a, name);
      }
    }
  }

  lemma {:induction false} ExpectedMember(a: seq<AchievementRecord>, b: seq<AchievementRecord>, name: FileName)
    requires multiset(a) == multiset(b) && name in Expected(a)
    ensures name in Expected(b)
  {
    var i :| 0 <= i < |a| && PathFor(a[i]) == Some(name);
    assert a[i] in multiset(b);
    var j :| 0 <= j < |b| && b[j] == a[i];
  }

  /**
    After a sync that skipped nothing, another one on any permutation of the
    records asks for nothing and changes nothing, whatever its own environment
    does, but for removing what the first sync failed to remove.
   */
  lemma {:induction false} SyncIsIdempotent(fatal: ErrorResponse -> bool, c: Cache, records: seq<AchievementRecord>,
          f: SyncFate, again: seq<AchievementRecord>, f': SyncFate)
    requires Lists(f.listing, c.files) && Sync(fatal, c, records, f).1 == Ok([])
    requires multiset(again) == multiset(records)
    ensures var c' := Sync(fatal, c, records, f).0;
            var c'' := Sync(fatal, c', again, f').0;
            && c''.retrievals == c'.retrievals && c''.counter == c'.counter
            && (forall name :: name in c''.files ==> name in c'.files && c''.files[name] == c'.files[name])
            && (forall name :: name in c'.files && name !in c''.files ==>
                 Left(records, f, c, name) && name !in f'.stuck)
  {
    var c' := Sync(fatal, c, records, f).0;
    SyncConverges(fatal, c, records, f);
    PermutationExpects(again, records);
    var entries := if BreaksOff(f') then f'.listing[..f'.listed.value] else f'.listing;
    var files := Prune(c'.files, Expected(again), entries, f'.stuck);
    forall name
      ensures name in files ==> name in c'.files && files[name] == c'.files[name]
      ensures name in c'.files && name !in files ==> Prunable(Expected(records), name) && name !in f'.stuck
    {
      PruneMeans(c'.files, Expected(again), entries, f'.stuck, name);
    }
    forall name | name in Expected(again)
      ensures name in files
    {
      var j :| 0 <= j < |records| && PathFor(records[j]) == Some(name);
      assert CachedOrSkipped(records[j], c'.files, []);
      PruneMeans(c'.files, Expected(again), entries, f'.stuck, name);
    }
    NothingToEnsure(fatal, c'.(files := files), again, f'.fates, 0, []);
  }
}
