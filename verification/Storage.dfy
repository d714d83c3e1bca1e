/**
  Extension stores (rust_backend/crates/extensions/src/storage.rs): handles on one file share a snapshot
  of it, kept together with the file's identity and a tag of the key that opened it.

  `Codec` holds what is not looked into: encryption, hashing, JSON, and the content that a file identity
  (length, time, inode) stands for. `Meaning` is what a fresh read, decryption and parse would give.

  The handles of one path take turns under a lock, but nothing keeps other programs from its files. They may
  act between two operations and, inside one, before each of its system calls.
*/
module Storage {
  import opened Options

  type Data = string
  type Key = nat
  type Tag = nat
  type Salt = nat
  type Identity = nat
  type Object = map<string, string>

  datatype Failure = Closed | Io | Parse | MissingKey | Authentication
  datatype Result<T> = Ok(value: T) | Error(failure: Failure)

  datatype Kind = Plain | Credentials | Settings

  datatype Codec = Codec(
    encrypt: (Data, Key, nat) -> Data, decrypt: (Data, Key) -> Option<Data>,
    parse: Data -> Option<Object>, serialize: Object -> Data,
    tag: Key -> Tag, legacyKey: Salt -> Key, content: Identity -> Data)
  {
    /** Decryption undoes encryption, parsing undoes serialization, tags do not collide. */
    ghost predicate Sound() {
      && (forall p, k, n :: decrypt(encrypt(p, k, n), k) == Some(p))
      && (forall m :: parse(serialize(m)) == Some(m))
      && (forall j, k :: tag(j) == tag(k) ==> j == k)
    }

    /** What the bytes of a file mean under the current key. */
    function Open(kind: Kind, key: Option<Key>, data: Data): Option<Object> {
      if kind == Plain then parse(data)
      else if key.None? then None
      else
        match decrypt(data, key.value)
        case None => None
        case Some(plain) => parse(plain)
    }

    /** `cache_tag`. */
    function TagOf(kind: Kind, key: Option<Key>): Option<Tag> {
      if kind == Plain || key.None? then None else Some(tag(key.value))
    }
  }

  /** The store's file, the old `settings.json`, and the salt of the old credentials key. */
  datatype Files = Files(file: Option<Identity>, legacy: Option<Data>, salt: Option<Salt>)

  datatype FileCache = FileCache(snapshot: Option<Object>, identity: Option<Identity>, keyTag: Option<Tag>)

  /** A fresh read, with the two legacy formats. */
  function Meaning(c: Codec, kind: Kind, key: Option<Key>, files: Files): Option<Object> {
    match files.file
    case None =>
      if kind != Settings || files.legacy.None? then Some(map[])
      else if key.None? then None
      else c.parse(files.legacy.value)
    case Some(id) =>
      var data := c.content(id);
      if kind == Credentials && key.Some? && c.decrypt(data, key.value).None? && files.salt.Some? then
        match c.decrypt(data, c.legacyKey(files.salt.value))
        case None => None
        case Some(plain) => c.parse(plain)
      else c.Open(kind, key, data)
  }

  /** The system calls of one operation before which others may have changed the files. The first stat is
      where an operation begins. */
  datatype Moment =
    | ToRead | ToReadSalt | ToWriteSalt | ToReadLegacy | ToWrite | ToUnlink | ToRestat | ToRewrite | ToFinalStat

  /** What the system does during one operation: which calls succeed, the identity it gives to a file just
      written, the nonce and the salt it draws, and what others make of the files before a call. */
  datatype System = System(stat: bool, read: bool, readSalt: bool, writeSalt: bool, readLegacy: bool, write: bool,
                           unlink: bool, restat: bool, rewrite: bool, finalStat: bool,
                           stamp: Data -> Identity, nonce: nat, salt: Salt, others: (Moment, Files) -> Files)
  {
    /** An identity stands for the content just written. */
    ghost predicate Stamps(c: Codec) { forall d :: c.content(stamp(d)) == d }

    predicate NoFault() {
      stat && read && readSalt && writeSalt && readLegacy && write && unlink && restat && rewrite && finalStat
    }

    /** Nobody else does anything. */
    ghost predicate Quiet() { forall m, f :: others(m, f) == f }

    /** Nobody else replaces the file between its last read or write and the stat that follows. */
    ghost predicate Settles() {
      forall m, f | m in {ToReadLegacy, ToUnlink, ToRestat, ToFinalStat} :: others(m, f).file == f.file
    }
  }

  /** `seen` is each file as the operation read it. */
  datatype Loaded = Loaded(files: Files, seen: Files, result: Result<Object>)

  /** The old credentials format: open with the salted key, rewrite under the current one. */
  function LoadLegacyCredentials(c: Codec, key: Key, id: Identity, files: Files, y: System): Loaded {
    var asked := y.others(ToReadSalt, files);
    if !y.readSalt then Loaded(asked, files, Error(Io))
    else
      var salted := if asked.salt.Some? then asked else y.others(ToWriteSalt, asked);
      if asked.salt.None? && !y.writeSalt then Loaded(salted, files, Error(Io))
      else
        var salt := if asked.salt.Some? then asked.salt.value else y.salt;
        LoadSalted(c, key, id, salt, if asked.salt.Some? then salted else salted.(salt := Some(salt)), y)
  }

  function LoadSalted(c: Codec, key: Key, id: Identity, salt: Salt, files: Files, y: System): Loaded {
    var seen := Files(Some(id), files.legacy, Some(salt));
    match c.decrypt(c.content(id), c.legacyKey(salt))
    case None => Loaded(files, seen, Error(Authentication))
    case Some(plain) =>
      if c.parse(plain).None? then Loaded(files, seen, Error(Parse))
      else
        var now := y.others(ToWrite, files);
        if !y.write then Loaded(now, seen, Error(Io))
        else Loaded(now.(file := Some(y.stamp(c.encrypt(plain, key, y.nonce)))), seen, Ok(c.parse(plain).value))
  }

  /** `migrate_settings`. */
  function MigrateSettings(c: Codec, key: Option<Key>, files: Files, y: System): Loaded {
    var asked := y.others(ToReadLegacy, files);
    var seen := Files(None, asked.legacy, files.salt);
    if !y.readLegacy then Loaded(asked, seen, Error(Io))
    else if asked.legacy.None? then Loaded(asked, seen, Ok(map[]))
    else if c.parse(asked.legacy.value).None? then Loaded(asked, seen, Error(Parse))
    else if key.None? then Loaded(asked, seen, Error(MissingKey))
    else
      var now := y.others(ToWrite, asked);
      if !y.write then Loaded(now, seen, Error(Io))
      else
        var written := now.(file := Some(y.stamp(c.encrypt(asked.legacy.value, key.value, y.nonce))));
        var left := y.others(ToUnlink, written);
        if !y.unlink then Loaded(left, seen, Error(Io))
        else Loaded(left.(legacy := None), seen, Ok(c.parse(asked.legacy.value).value))
  }

  function Parsed(data: Option<Object>): Result<Object> {
    if data.Some? then Ok(data.value) else Error(Parse)
  }

  /** The reading part of `refresh`. */
  function LoadFile(c: Codec, kind: Kind, key: Option<Key>, before: Files, y: System): Loaded {
    var files := y.others(ToRead, before);
    if !y.read then Loaded(files, files, Error(Io))
    else
      match files.file
      case None => if kind == Settings then MigrateSettings(c, key, files, y) else Loaded(files, files, Ok(map[]))
      case Some(id) =>
        if kind == Plain then Loaded(files, files, Parsed(c.parse(c.content(id))))
        else if key.None? then Loaded(files, files, Error(MissingKey))
        else
          match c.decrypt(c.content(id), key.value)
          case Some(plain) => Loaded(files, files, Parsed(c.parse(plain)))
          case None =>
            if kind == Credentials then LoadLegacyCredentials(c, key.value, id, files, y)
            else Loaded(files, files, Error(Authentication))
  }

  predicate Stale(c: Codec, kind: Kind, key: Option<Key>, cache: FileCache, files: Files) {
    || cache.snapshot.None?
    || cache.identity != files.file
    || cache.keyTag != c.TagOf(kind, key)
    || (kind == Settings && files.file.None?)
  }

  /** `filled`: the operation replaced the shared snapshot. */
  datatype Outcome<T> = Outcome(cache: FileCache, files: Files, result: Result<T>, seen: Files, filled: bool)

  /** `refresh`. */
  function Refresh(c: Codec, kind: Kind, key: Option<Key>, cache: FileCache, files: Files, y: System): Outcome<Object> {
    if !y.stat then Outcome(cache, files, Error(Io), files, false)
    else if !Stale(c, kind, key, cache, files) then Outcome(cache, files, Ok(cache.snapshot.value), files, false)
    else
      var load := LoadFile(c, kind, key, files, y);
      if load.result.Error? then Outcome(cache, load.files, load.result, load.seen, false)
      else
        var now := y.others(ToRestat, load.files);
        if !y.restat then Outcome(cache, now, Error(Io), load.seen, false)
        else
          var cache' := FileCache(Some(load.result.value), now.file, c.TagOf(kind, key));
          Outcome(cache', now, load.result, load.seen, true)
  }

  /** An edit of the snapshot, and whether it is to be saved. */
  datatype Change = Set(key: string, value: string) | Remove(key: string) | Replace(contents: Object) {
    function Apply(kind: Kind, o: Object): (bool, Object) {
      match this
      case Set(k, v) => (true, o[k := v])
      case Remove(k) => (k in o || kind != Plain, o - {k})
      case Replace(n) => (true, n)
    }
  }

  /** `get`, in an object. */
  function Find(o: Object, k: string): Option<string> {
    if k in o then Some(o[k]) else None
  }

  /** What a change does, entry by entry. */
  ghost predicate Makes(change: Change, before: Object, after: Object) {
    match change
    case Set(k, v) => Find(after, k) == Some(v) && forall j | j != k :: Find(after, j) == Find(before, j)
    case Remove(k) => Find(after, k) == None && forall j | j != k :: Find(after, j) == Find(before, j)
    case Replace(n) => after == n
  }

  /** The one change that needs no write. */
  predicate Spared(kind: Kind, change: Change, before: Object) {
    kind == Plain && change.Remove? && change.key !in before
  }

  function Sealed(c: Codec, kind: Kind, key: Option<Key>, contents: Object, y: System): Data
    requires kind == Plain || key.Some?
  {
    var plain := c.serialize(contents);
    if kind == Plain then plain else c.encrypt(plain, key.value, y.nonce + 1)
  }

  /** `mutate`. */
  function Mutate(c: Codec, kind: Kind, key: Option<Key>, cache: FileCache, files: Files, change: Change,
                  y: System): Outcome<()>
  {
    var r := Refresh(c, kind, key, cache, files, y);
    if r.result.Error? then Outcome(r.cache, r.files, Error(r.result.failure), r.seen, r.filled)
    else
      var (save, contents) := change.Apply(kind, r.result.value);
      if !save then Outcome(r.cache, r.files, Ok(()), r.seen, r.filled)
      else if kind != Plain && key.None? then Outcome(r.cache, r.files, Error(MissingKey), r.seen, r.filled)
      else
        var now := y.others(ToRewrite, r.files);
        if !y.rewrite then Outcome(r.cache, now, Error(Io), r.seen, r.filled)
        else
          var written := now.(file := Some(y.stamp(Sealed(c, kind, key, contents, y))));
          var left := y.others(ToFinalStat, written);
          if !y.finalStat then Outcome(r.cache, left, Error(Io), r.seen, r.filled)
          else Outcome(FileCache(Some(contents), left.file, c.TagOf(kind, key)), left, Ok(()), r.seen, true)
  }

  // ----- coherence -----------------------------------------------------------------------------

  /** What a file holds now is what the snapshot says. Missing settings are looked for again every time. */
  predicate Stands(c: Codec, kind: Kind, key: Option<Key>, file: Option<Identity>, o: Object) {
    match file
    case None => kind == Settings || o == map[]
    case Some(id) => c.Open(kind, key, c.content(id)) == Some(o)
  }

  /** The snapshot is what its identity means to every key with its tag. */
  ghost predicate Coherent(c: Codec, kind: Kind, cache: FileCache) {
    cache.snapshot.Some? ==>
      forall key | c.TagOf(kind, key) == cache.keyTag :: Stands(c, kind, key, cache.identity, cache.snapshot.value)
  }

  /** A snapshot just filled in is coherent exactly if its file, as the stat after it found it, still holds it. */
  lemma {:induction false} FilledCoherentExactly(c: Codec, kind: Kind, key: Option<Key>, file: Option<Identity>,
                                                 o: Object)
    requires c.Sound()
    ensures Coherent(c, kind, FileCache(Some(o), file, c.TagOf(kind, key))) <==> Stands(c, kind, key, file, o)
  {
    if Stands(c, kind, key, file, o) {
      forall k | c.TagOf(kind, k) == c.TagOf(kind, key) ensures Stands(c, kind, k, file, o) {
        SameTagOpensAlike(c, kind, k, key, file, o);
      }
    }
  }

  lemma {:induction false} SameTagOpensAlike(c: Codec, kind: Kind, j: Option<Key>, k: Option<Key>,
                                             file: Option<Identity>, o: Object)
    requires c.Sound() && c.TagOf(kind, j) == c.TagOf(kind, k)
    ensures Stands(c, kind, j, file, o) <==> Stands(c, kind, k, file, o)
  {}

  // ----- reading -------------------------------------------------------------------------------

  /** Whatever others do meanwhile, a load that succeeds gives the meaning of what it read. */
  lemma {:induction false} LoadMeansSeen(c: Codec, kind: Kind, key: Option<Key>, files: Files, y: System)
    requires c.Sound()
    ensures var load := LoadFile(c, kind, key, files, y);
            load.result.Ok? ==> Meaning(c, kind, key, load.seen) == Some(load.result.value)
  {}

  /** Unless others replace the file after its last read or write, a load leaves it holding the result. */
  lemma {:induction false} LoadStands(c: Codec, kind: Kind, key: Option<Key>, files: Files, y: System)
    requires c.Sound() && y.Stamps(c) && y.Settles()
    ensures var load := LoadFile(c, kind, key, files, y);
            load.result.Ok? ==> Stands(c, kind, key, load.files.file, load.result.value)
  {}

  /** Left alone, the legacy formats mean the same before and after they are rewritten, and a load fails
      exactly when there is nothing to read, unless a call fails. */
  lemma {:induction false} LoadMeans(c: Codec, kind: Kind, key: Option<Key>, files: Files, y: System)
    requires c.Sound() && y.Stamps(c) && y.Quiet()
    ensures var load := LoadFile(c, kind, key, files, y);
            && (load.result.Ok? ==> Meaning(c, kind, key, files.(salt := load.files.salt)) == Some(load.result.value))
            && Meaning(c, kind, key, load.files) == Meaning(c, kind, key, files.(salt := load.files.salt))
            && (files.salt.Some? ==> load.files.salt == files.salt)
            && (y.NoFault() ==> (load.result.Ok? <==> Meaning(c, kind, key, files.(salt := load.files.salt)).Some?))
  {}

  /** Old settings move: once read, they are in the new file, encrypted under the key, and the old one is gone. */
  lemma {:induction false} MigrationMoves(c: Codec, key: Option<Key>, files: Files, y: System)
    requires c.Sound() && y.Stamps(c) && y.Quiet() && files.file.None? && files.legacy.Some?
    ensures var load := LoadFile(c, Settings, key, files, y);
            && (load.result.Ok? ==>
                 && load.files.legacy.None? && load.files.file.Some? && key.Some?
                 && c.decrypt(c.content(load.files.file.value), key.value) == files.legacy
                 && c.parse(files.legacy.value) == Some(load.result.value))
            && (load.result.Error? && y.unlink ==> load.files == files)
  {}

  /** A read that succeeds gives the meaning of what it saw, from the snapshot or from the file. The
      snapshot stays coherent exactly if the file still holds, at the second stat, what was loaded. */
  lemma {:induction false} RefreshIsFreshRead(c: Codec, kind: Kind, key: Option<Key>, cache: FileCache, files: Files,
                                              y: System)
    requires c.Sound() && Coherent(c, kind, cache)
    ensures var r := Refresh(c, kind, key, cache, files, y);
            && (r.result.Ok? ==> Meaning(c, kind, key, r.seen) == Some(r.result.value))
            && (r.filled ==> r.result.Ok? && r.cache.identity == r.files.file)
            && (Coherent(c, kind, r.cache) <==> (r.filled ==> Stands(c, kind, key, r.files.file, r.result.value)))
            && (y.Stamps(c) && y.Settles() ==> Coherent(c, kind, r.cache))
  {
    if y.stat {
      if !Stale(c, kind, key, cache, files) {
        CachedMeans(c, kind, key, cache, files);
      } else {
        LoadMeansSeen(c, kind, key, files, y);
        if y.Stamps(c) && y.Settles() {
          LoadStands(c, kind, key, files, y);
          SettledFile(y, LoadFile(c, kind, key, files, y).files);
        }
        var r := Refresh(c, kind, key, cache, files, y);
        hide LoadFile, Meaning;
        if r.filled {
          FilledCoherentExactly(c, kind, key, r.files.file, r.result.value);
        }
        hide Stands;
      }
    }
  }

  lemma {:induction false} SettledFile(y: System, files: Files)
    requires y.Settles()
    ensures y.others(ToRestat, files).file == files.file && y.others(ToFinalStat, files).file == files.file
  {}

  lemma {:induction false} CachedMeans(c: Codec, kind: Kind, key: Option<Key>, cache: FileCache, files: Files)
    requires Coherent(c, kind, cache) && !Stale(c, kind, key, cache, files)
    ensures Meaning(c, kind, key, files) == cache.snapshot
  {
    assert Stands(c, kind, key, cache.identity, cache.snapshot.value);
  }

  /** Left alone, a read sees the files as they are and keeps their meaning; without a fault it succeeds
      exactly when a fresh read would. */
  lemma {:induction false} QuietRefresh(c: Codec, kind: Kind, key: Option<Key>, cache: FileCache, files: Files,
                                        y: System)
    requires c.Sound() && y.Stamps(c) && y.Quiet() && Coherent(c, kind, cache)
    ensures var r := Refresh(c, kind, key, cache, files, y);
            && (r.result.Ok? ==> Meaning(c, kind, key, r.files) == Some(r.result.value))
            && Meaning(c, kind, key, r.files) == Meaning(c, kind, key, files.(salt := r.files.salt))
            && (files.salt.Some? ==> r.files.salt == files.salt)
            && (y.NoFault() ==> (r.result.Ok? <==> Meaning(c, kind, key, r.files).Some?))
  {
    LoadMeans(c, kind, key, files, y);
    if y.stat && !Stale(c, kind, key, cache, files) {
      CachedMeans(c, kind, key, cache, files);
    }
    hide LoadFile, Meaning, Coherent;
  }

  /** Who fills the snapshot serves it until the file's identity changes again: the next read is fresh
      exactly if the files, at the second stat, still meant what had been read. Settings whose file is
      missing are never served from the snapshot. */
  lemma {:induction false} NextReadIsFreshExactly(c: Codec, kind: Kind, key: Option<Key>, cache: FileCache,
                                                  files: Files, y: System, next: System)
    requires c.Sound() && Coherent(c, kind, cache)
    requires var r := Refresh(c, kind, key, cache, files, y); r.filled && (r.files.file.Some? || kind != Settings)
    requires next.stat
    ensures var r := Refresh(c, kind, key, cache, files, y);
            var s := Refresh(c, kind, key, r.cache, r.files, next);
            && s.result.Ok?
            && (Meaning(c, kind, key, r.files) == Some(s.result.value) <==>
                Meaning(c, kind, key, r.files) == Meaning(c, kind, key, r.seen))
  {
    RefreshIsFreshRead(c, kind, key, cache, files, y);
    hide LoadFile, Meaning, Coherent, Stands;
  }

  /** The failing case: `a` is read, then somebody writes `b` or deletes the file, then the second stat gives
      the snapshot that identity, or none. From then on `a` is served although a fresh read would differ. */
  lemma {:induction false} ChangeBeforeTheStatStaysUnseen(c: Codec, a: Object, b: Option<Object>,
                                                          y: System, next: System)
    requires c.Sound() && y.Stamps(c) && y.NoFault() && next.stat
    requires a != if b.Some? then b.value else map[]
    requires var f := Files(Some(y.stamp(c.serialize(a))), None, None);
             && y.others(ToRead, f) == f
             && y.others(ToRestat, f) ==
                  f.(file := if b.Some? then Some(y.stamp(c.serialize(b.value))) else None)
    ensures var f := Files(Some(y.stamp(c.serialize(a))), None, None);
            var r := Refresh(c, Plain, None, UNREAD, f, y);
            && r.result == Ok(a)
            && !Coherent(c, Plain, r.cache)
            && Refresh(c, Plain, None, r.cache, r.files, next).result == Ok(a)
            && Meaning(c, Plain, None, r.files) == Some(if b.Some? then b.value else map[])
  {
    var f := Files(Some(y.stamp(c.serialize(a))), None, None);
    var r := Refresh(c, Plain, None, UNREAD, f, y);
    assert r.result == Ok(a) && r.cache == FileCache(Some(a), r.files.file, None);
    FilledCoherentExactly(c, Plain, None, r.cache.identity, a);
  }

  // ----- writing -------------------------------------------------------------------------------

  lemma {:induction false} WrittenMeans(c: Codec, kind: Kind, key: Option<Key>, contents: Object, y: System,
                                        files: Files)
    requires c.Sound() && y.Stamps(c) && (kind == Plain || key.Some?)
    ensures var id := y.stamp(Sealed(c, kind, key, contents, y));
            && Stands(c, kind, key, Some(id), contents)
            && Meaning(c, kind, key, files.(file := Some(id))) == Some(contents)
  {}

  /** A change is made to the meaning of what was seen. The snapshot stays coherent exactly if the file still
      holds, at each stat that follows, what was loaded or saved. */
  lemma {:induction false} MutateCoherent(c: Codec, kind: Kind, key: Option<Key>, cache: FileCache, files: Files,
                                          change: Change, y: System)
    requires c.Sound() && Coherent(c, kind, cache)
    ensures var m := Mutate(c, kind, key, cache, files, change, y);
            && (m.result.Ok? ==> Meaning(c, kind, key, m.seen).Some? && m.cache.snapshot.Some? &&
                                 Makes(change, Meaning(c, kind, key, m.seen).value, m.cache.snapshot.value))
            && (Coherent(c, kind, m.cache) <==>
                (m.filled ==> Stands(c, kind, key, m.cache.identity, m.cache.snapshot.value)))
            && (y.Stamps(c) && y.Settles() ==> Coherent(c, kind, m.cache))
  {
    RefreshIsFreshRead(c, kind, key, cache, files, y);
    var r := Refresh(c, kind, key, cache, files, y);
    var m := Mutate(c, kind, key, cache, files, change, y);
    if r.result.Ok? {
      RefreshServes(c, kind, key, cache, files, y);
      ApplyMakes(kind, r.result.value, change);
      var (save, contents) := change.Apply(kind, r.result.value);
      hide Refresh;
      if save && (kind == Plain || key.Some?) && y.rewrite && y.finalStat {
        FilledCoherentExactly(c, kind, key, m.cache.identity, contents);
        var written := y.others(ToRewrite, r.files).(file := Some(y.stamp(Sealed(c, kind, key, contents, y))));
        if y.Stamps(c) && y.Settles() {
          WrittenMeans(c, kind, key, contents, y, r.files);
          SettledFile(y, written);
        }
      }
    }
    hide Refresh, Meaning, Coherent, Stands, Sealed, Makes, Change.Apply;
  }

  lemma {:induction false} RefreshServes(c: Codec, kind: Kind, key: Option<Key>, cache: FileCache, files: Files,
                                         y: System)
    ensures var r := Refresh(c, kind, key, cache, files, y);
            && (r.result.Ok? ==> r.cache.snapshot == Some(r.result.value))
            && (!r.filled ==> r.cache == cache)
  {
    hide LoadFile;
  }

  lemma {:induction false} ApplyMakes(kind: Kind, o: Object, change: Change)
    ensures Makes(change, o, change.Apply(kind, o).1)
    ensures !change.Apply(kind, o).0 <==> Spared(kind, change, o)
    ensures Spared(kind, change, o) ==> change.Apply(kind, o).1 == o
  {}

  /** Nothing is written, and nothing can fail any more, exactly if a plain store is asked to remove a key it
      lacks. */
  lemma {:induction false} SparedExactly(c: Codec, kind: Kind, key: Option<Key>, cache: FileCache, files: Files,
                                         change: Change, y: System)
    requires c.Sound() && y.Stamps(c) && y.Quiet() && Coherent(c, kind, cache)
    ensures var m := Mutate(c, kind, key, cache, files, change, y);
            var before := Meaning(c, kind, key, files.(salt := m.files.salt));
            m.result.Ok? ==>
              && before.Some?
              && if Spared(kind, change, before.value) then m.files == files
                 else
                   && y.rewrite
                   && exists d :: m.files.file == Some(y.stamp(d)) &&
                                  c.Open(kind, key, d) == Meaning(c, kind, key, m.files)
    ensures var r := Refresh(c, kind, key, cache, files, y);
            r.result.Ok? && Spared(kind, change, r.result.value) ==>
              Mutate(c, kind, key, cache, files, change, y).result.Ok?
  {
    QuietRefresh(c, kind, key, cache, files, y);
    MutateWrites(c, kind, key, cache, files, change, y);
    if kind == Plain {
      PlainReadsOnly(c, key, cache, files, y);
    }
    var r := Refresh(c, kind, key, cache, files, y);
    var m := Mutate(c, kind, key, cache, files, change, y);
    hide Refresh, Meaning, Coherent, Makes, Change.Apply;
    if r.result.Ok? {
      ApplyMakes(kind, r.result.value, change);
    }
    if m.result.Ok? && !Spared(kind, change, r.result.value) {
      var contents := change.Apply(kind, r.result.value).1;
      WrittenMeans(c, kind, key, contents, y, r.files);
      hide Codec.Open, Sealed;
      assert m.files.file == Some(y.stamp(Sealed(c, kind, key, contents, y)));
    }
  }

  lemma {:induction false} PlainReadsOnly(c: Codec, key: Option<Key>, cache: FileCache, files: Files, y: System)
    requires y.Quiet()
    ensures Refresh(c, Plain, key, cache, files, y).files == files
  {}

  /** Left alone, after a successful change a fresh read gives the changed object; after a failed one it
      gives the old object or, when only the last look at the new file failed, the changed one. Without a
      fault it succeeds exactly when the object can be read and its file be written. */
  lemma {:induction false} MutateWrites(c: Codec, kind: Kind, key: Option<Key>, cache: FileCache, files: Files,
                                        change: Change, y: System)
    requires c.Sound() && y.Stamps(c) && y.Quiet() && Coherent(c, kind, cache)
    ensures var m := Mutate(c, kind, key, cache, files, change, y);
            var before := Meaning(c, kind, key, files.(salt := m.files.salt));
            var after := Meaning(c, kind, key, m.files);
            && (m.result.Ok? ==> before.Some? && after.Some? && Makes(change, before.value, after.value))
            && (m.result.Error? ==>
                 after == before || (before.Some? && after.Some? && Makes(change, before.value, after.value)))
            && (files.salt.Some? ==> m.files.salt == files.salt)
            && (y.NoFault() ==> (m.result.Ok? <==> before.Some? && (kind == Plain || key.Some?)))
  {
    QuietRefresh(c, kind, key, cache, files, y);
    var r := Refresh(c, kind, key, cache, files, y);
    hide Refresh, LoadFile;
    if r.result.Ok? {
      var (save, contents) := change.Apply(kind, r.result.value);
      ApplyMakes(kind, r.result.value, change);
      if save && (kind == Plain || key.Some?) {
        WrittenMeans(c, kind, key, contents, y, r.files);
      }
    }
    hide Meaning, Coherent, Sealed, Makes, Change.Apply;
  }

  // ----- runs ----------------------------------------------------------------------------------

  /** `owner` is the key of the operation that last filled the snapshot. */
  datatype World = World(cache: FileCache, files: Files, owner: Option<Key>)

  /** A handle's operation, or others changing the files between two operations. */
  datatype Event =
    | Read(closed: bool, key: Option<Key>, system: System)
    | Write(closed: bool, key: Option<Key>, change: Change, system: System)
    | External(files: Files)

  ghost predicate Stamped(c: Codec, e: Event) { !e.External? ==> e.system.Stamps(c) }

  ghost predicate Settled(e: Event) { !e.External? ==> e.system.Settles() }

  function Next(c: Codec, kind: Kind, w: World, e: Event): World {
    match e
    case Read(closed, key, y) =>
      if closed then w
      else
        var r := Refresh(c, kind, key, w.cache, w.files, y);
        World(r.cache, r.files, if r.filled then key else w.owner)
    case Write(closed, key, change, y) =>
      if closed then w
      else
        var m := Mutate(c, kind, key, w.cache, w.files, change, y);
        World(m.cache, m.files, if m.filled then key else w.owner)
    case External(files) => w.(files := files)
  }

  function After(c: Codec, kind: Kind, w: World, events: seq<Event>): World
    decreases |events|
  {
    if events == [] then w else After(c, kind, Next(c, kind, w, events[0]), events[1..])
  }

  lemma {:induction false} RunKeepsCoherent(c: Codec, kind: Kind, w: World, events: seq<Event>)
    requires c.Sound() && Coherent(c, kind, w.cache) && forall e | e in events :: Stamped(c, e) && Settled(e)
    ensures Coherent(c, kind, After(c, kind, w, events).cache)
    decreases |events|
  {
    if events != [] {
      var e := events[0];
      assert Stamped(c, e) && Settled(e);
      if e.Read? && !e.closed {
        RefreshIsFreshRead(c, kind, e.key, w.cache, w.files, e.system);
      } else if e.Write? && !e.closed {
        MutateCoherent(c, kind, e.key, w.cache, w.files, e.change, e.system);
      }
      hide Refresh, Mutate, Coherent;
      RunKeepsCoherent(c, kind, Next(c, kind, w, e), events[1..]);
    }
  }

  const UNREAD := FileCache(None, None, None)

  function Begun(files: Files): World { World(UNREAD, files, None) }

  /** After any operations of any handles and any changes by others, between operations or inside them, as
      long as nobody replaced the file between an operation's last read or write of it and the stat that
      follows: the next read of any handle gives the meaning of what it sees. */
  lemma {:induction false} EveryReadIsFresh(c: Codec, kind: Kind, files: Files, events: seq<Event>, key: Option<Key>,
                                            y: System)
    requires c.Sound() && forall e | e in events :: Stamped(c, e) && Settled(e)
    ensures var w := After(c, kind, Begun(files), events);
            var r := Refresh(c, kind, key, w.cache, w.files, y);
            && (r.result.Ok? ==> Meaning(c, kind, key, r.seen) == Some(r.result.value))
            && (y.Stamps(c) && y.Quiet() ==>
                 && Meaning(c, kind, key, r.files) == Meaning(c, kind, key, w.files.(salt := r.files.salt))
                 && (r.result.Ok? ==> Meaning(c, kind, key, r.files) == Some(r.result.value)))
  {
    RunKeepsCoherent(c, kind, Begun(files), events);
    var w := After(c, kind, Begun(files), events);
    RefreshIsFreshRead(c, kind, key, w.cache, w.files, y);
    if y.Stamps(c) && y.Quiet() {
      QuietRefresh(c, kind, key, w.cache, w.files, y);
    }
  }

  /** After any such run, a change by a handle left alone leaves the object it found, changed, for every
      handle with its key. */
  lemma {:induction false} EveryChangeIsMade(c: Codec, kind: Kind, files: Files, events: seq<Event>,
                                             key: Option<Key>, change: Change, y: System, next: System)
    requires c.Sound() && forall e | e in events :: Stamped(c, e) && Settled(e)
    requires y.Stamps(c) && y.Quiet() && next.Stamps(c) && next.Quiet()
    ensures var w := After(c, kind, Begun(files), events);
            var m := Mutate(c, kind, key, w.cache, w.files, change, y);
            var r := Refresh(c, kind, key, m.cache, m.files, next);
            var before := Meaning(c, kind, key, w.files.(salt := m.files.salt));
            m.result.Ok? && r.result.Ok? ==> before.Some? && Makes(change, before.value, r.result.value)
  {
    var w := After(c, kind, Begun(files), events);
    var m := Mutate(c, kind, key, w.cache, w.files, change, y);
    RunKeepsCoherent(c, kind, Begun(files), events);
    MutateWrites(c, kind, key, w.cache, w.files, change, y);
    MutateCoherent(c, kind, key, w.cache, w.files, change, y);
    QuietSettles(y);
    QuietRefresh(c, kind, key, m.cache, m.files, next);
    hide Refresh, Mutate, Meaning, Coherent, Makes, After, Stands;
    if m.result.Ok? {
      SaltTold(c, kind, key, m.files, Refresh(c, kind, key, m.cache, m.files, next).files.salt);
    }
  }

  lemma {:induction false} QuietSettles(y: System)
    requires y.Quiet()
    ensures y.Settles()
  {}

  /** What can be read without drawing a salt does not depend on one drawn later. */
  lemma {:induction false} SaltTold(c: Codec, kind: Kind, key: Option<Key>, files: Files, salt: Option<Salt>)
    requires Meaning(c, kind, key, files).Some? && (files.salt.Some? ==> salt == files.salt)
    ensures Meaning(c, kind, key, files.(salt := salt)) == Meaning(c, kind, key, files)
  {}

  predicate Touches(change: Change, k: string) { change.Replace? || change.key == k }

  /** A handle with this key is left alone and does not change `k`. */
  ghost predicate Passes(c: Codec, key: Option<Key>, e: Event, k: string) {
    && !e.External? && e.key == key && e.system.Stamps(c) && e.system.Quiet()
    && (e.Write? ==> !Touches(e.change, k))
  }

  /** A fresh read finds `x` under `k`. */
  predicate Finds(c: Codec, kind: Kind, key: Option<Key>, files: Files, k: string, x: Option<string>) {
    var o := Meaning(c, kind, key, files);
    o.Some? && Find(o.value, k) == x
  }

  lemma {:induction false} MakesPasses(change: Change, before: Object, after: Object, k: string)
    requires Makes(change, before, after) && !Touches(change, k)
    ensures Find(after, k) == Find(before, k)
  {}

  lemma {:induction false} PassingKeepsValue(c: Codec, kind: Kind, w: World, e: Event, key: Option<Key>, k: string,
                                             x: Option<string>)
    requires c.Sound() && Coherent(c, kind, w.cache) && Finds(c, kind, key, w.files, k, x) && Passes(c, key, e, k)
    ensures Coherent(c, kind, Next(c, kind, w, e).cache) && Finds(c, kind, key, Next(c, kind, w, e).files, k, x)
  {
    var w' := Next(c, kind, w, e);
    if !e.closed {
      QuietSettles(e.system);
      if e.Read? {
        RefreshIsFreshRead(c, kind, key, w.cache, w.files, e.system);
        QuietRefresh(c, kind, key, w.cache, w.files, e.system);
      } else {
        MutateCoherent(c, kind, key, w.cache, w.files, e.change, e.system);
        MutateWrites(c, kind, key, w.cache, w.files, e.change, e.system);
      }
      hide Refresh, Mutate, Meaning, Coherent, Makes, Find, Touches, Stands;
      SaltTold(c, kind, key, w.files, w'.files.salt);
      var before, after := Meaning(c, kind, key, w.files).value, Meaning(c, kind, key, w'.files);
      if e.Write? && after.Some? && Makes(e.change, before, after.value) {
        MakesPasses(e.change, before, after.value, k);
      }
    }
  }

  lemma {:induction false} RunKeepsValue(c: Codec, kind: Kind, w: World, events: seq<Event>, key: Option<Key>,
                                         k: string, x: Option<string>)
    requires c.Sound() && Coherent(c, kind, w.cache) && Finds(c, kind, key, w.files, k, x)
    requires forall e | e in events :: Passes(c, key, e, k)
    ensures var w' := After(c, kind, w, events); Coherent(c, kind, w'.cache) && Finds(c, kind, key, w'.files, k, x)
    decreases |events|
  {
    if events != [] {
      PassingKeepsValue(c, kind, w, events[0], key, k, x);
      hide Next, Coherent, Finds, Passes;
      RunKeepsValue(c, kind, Next(c, kind, w, events[0]), events[1..], key, k, x);
    }
  }

  /** Once `k` was set or removed, and while the handles with this key do not touch `k` and are left alone, any
      reading or changing they do, failing or not, a read finds what was set, or nothing. */
  lemma {:induction false} LastChangeIsRead(c: Codec, kind: Kind, w: World, key: Option<Key>, change: Change,
                                            y: System, events: seq<Event>, next: System)
    requires c.Sound() && Coherent(c, kind, w.cache) && !change.Replace?
    requires y.Stamps(c) && y.Quiet() && Mutate(c, kind, key, w.cache, w.files, change, y).result.Ok?
    requires forall e | e in events :: Passes(c, key, e, change.key)
    requires next.Stamps(c) && next.Quiet()
    ensures var v := After(c, kind, Next(c, kind, w, Write(false, key, change, y)), events);
            var r := Refresh(c, kind, key, v.cache, v.files, next);
            && (next.NoFault() ==> r.result.Ok?)
            && (r.result.Ok? ==>
                  Find(r.result.value, change.key) == if change.Set? then Some(change.value) else None)
  {
    var x := if change.Set? then Some(change.value) else None;
    MutateWrites(c, kind, key, w.cache, w.files, change, y);
    MutateCoherent(c, kind, key, w.cache, w.files, change, y);
    QuietSettles(y);
    hide Refresh, Mutate, Meaning, Coherent, Find, Stands;
    var u := Next(c, kind, w, Write(false, key, change, y));
    assert Finds(c, kind, key, u.files, change.key, x);
    RunKeepsValue(c, kind, u, events, key, change.key, x);
    hide Next, After;
    var v := After(c, kind, u, events);
    QuietRefresh(c, kind, key, v.cache, v.files, next);
    SaltTold(c, kind, key, v.files, Refresh(c, kind, key, v.cache, v.files, next).files.salt);
  }

  lemma {:induction false} StepKeepsOwner(c: Codec, kind: Kind, w: World, e: Event)
    requires w.cache.snapshot.Some? ==> w.cache.keyTag == c.TagOf(kind, w.owner)
    ensures var w' := Next(c, kind, w, e); w'.cache.snapshot.Some? ==> w'.cache.keyTag == c.TagOf(kind, w'.owner)
  {
    hide LoadFile, Stale;
  }

  lemma {:induction false} RunKeepsOwner(c: Codec, kind: Kind, w: World, events: seq<Event>)
    requires w.cache.snapshot.Some? ==> w.cache.keyTag == c.TagOf(kind, w.owner)
    ensures var w' := After(c, kind, w, events); w'.cache.snapshot.Some? ==> w'.cache.keyTag == c.TagOf(kind, w'.owner)
    decreases |events|
  {
    if events != [] {
      StepKeepsOwner(c, kind, w, events[0]);
      hide Next;
      RunKeepsOwner(c, kind, Next(c, kind, w, events[0]), events[1..]);
    }
  }

  /** Over every run, whatever others do: the encrypted snapshot that one handle's operation filled is served
      without reading the file only to handles with the same key. */
  lemma {:induction false} SnapshotsDoNotCrossKeys(c: Codec, kind: Kind, files: Files, events: seq<Event>,
                                                   key: Option<Key>, y: System)
    requires c.Sound() && kind != Plain
    ensures var w := After(c, kind, Begun(files), events);
            var r := Refresh(c, kind, key, w.cache, w.files, y);
            r.result.Ok? && !r.filled ==> key == w.owner
  {
    RunKeepsOwner(c, kind, Begun(files), events);
    hide LoadFile, After;
  }

  // ----- the program -----------------------------------------------------------------------------

  /** What all handles on one path share. */
  class SharedFile {
    var cache: FileCache

    constructor ()
      ensures cache == UNREAD
    {
      cache := UNREAD;
    }
  }

  class Disk {
    var files: Files

    constructor (f: Files)
      ensures files == f
    {
      files := f;
    }
  }

  /** A handle for one kind of store. */
  class ExtensionStore {
    const codec: Codec
    const kind: Kind
    const key: Option<Key>
    const shared: SharedFile
    const disk: Disk
    var closed: bool

    constructor (codec: Codec, kind: Kind, key: Option<Key>, shared: SharedFile, disk: Disk)
      ensures this.codec == codec && this.kind == kind && this.key == key
      ensures this.shared == shared && this.disk == disk && !closed
    {
      this.codec, this.kind, this.key, this.shared, this.disk, closed := codec, kind, key, shared, disk, false;
    }

    method Close()
      modifies this
      ensures closed
    {
      closed := true;
    }

    /** Others may act before the next call. */
    method LetOthers(m: Moment, y: System)
      modifies disk
      ensures disk.files == y.others(m, old(disk.files))
    {
      disk.files := y.others(m, disk.files);
    }

    /** `migrate_settings`; `before` is what the read of the missing file saw. */
    method Migrate(y: System) returns (r: Result<Object>, ghost seen: Files)
      modifies disk
      ensures Loaded(disk.files, seen, r) == MigrateSettings(codec, key, old(disk.files), y)
    {
      ghost var salt := disk.files.salt;
      LetOthers(ToReadLegacy, y);
      var legacy := disk.files.legacy;
      seen := Files(None, legacy, salt);
      if !y.readLegacy {
        return Error(Io), seen;
      }
      if legacy.None? {
        return Ok(map[]), seen;
      }
      var contents := codec.parse(legacy.value);
      if contents.None? {
        return Error(Parse), seen;
      }
      if key.None? {
        return Error(MissingKey), seen;
      }
      LetOthers(ToWrite, y);
      if !y.write {
        return Error(Io), seen;
      }
      disk.files := disk.files.(file := Some(y.stamp(codec.encrypt(legacy.value, key.value, y.nonce))));
      LetOthers(ToUnlink, y);
      if !y.unlink {
        return Error(Io), seen;
      }
      disk.files := disk.files.(legacy := None);
      r := Ok(contents.value);
    }

    /** The old credentials format. */
    method LoadLegacy(id: Identity, y: System) returns (r: Result<Object>, ghost seen: Files)
      requires key.Some?
      modifies disk
      ensures Loaded(disk.files, seen, r) == LoadLegacyCredentials(codec, key.value, id, old(disk.files), y)
    {
      seen := disk.files;
      LetOthers(ToReadSalt, y);
      if !y.readSalt {
        return Error(Io), seen;
      }
      var salt := y.salt;
      if disk.files.salt.Some? {
        salt := disk.files.salt.value;
      } else {
        LetOthers(ToWriteSalt, y);
        if !y.writeSalt {
          return Error(Io), seen;
        }
        disk.files := disk.files.(salt := Some(salt));
      }
      seen := Files(Some(id), disk.files.legacy, Some(salt));
      var plain := codec.decrypt(codec.content(id), codec.legacyKey(salt));
      if plain.None? {
        return Error(Authentication), seen;
      }
      var contents := codec.parse(plain.value);
      if contents.None? {
        return Error(Parse), seen;
      }
      LetOthers(ToWrite, y);
      if !y.write {
        return Error(Io), seen;
      }
      disk.files := disk.files.(file := Some(y.stamp(codec.encrypt(plain.value, key.value, y.nonce))));
      r := Ok(contents.value);
    }

    /** The reading part of `refresh`, on the disk itself. */
    method Load(y: System) returns (r: Result<Object>, ghost seen: Files)
      modifies disk
      ensures Loaded(disk.files, seen, r) == LoadFile(codec, kind, key, old(disk.files), y)
    {
      LetOthers(ToRead, y);
      seen := disk.files;
      if !y.read {
        return Error(Io), seen;
      }
      if disk.files.file.None? {
        if kind != Settings {
          return Ok(map[]), seen;
        }
        r, seen := Migrate(y);
        return;
      }
      var id := disk.files.file.value;
      if kind == Plain {
        return Parsed(codec.parse(codec.content(id))), seen;
      }
      if key.None? {
        return Error(MissingKey), seen;
      }
      var plain := codec.decrypt(codec.content(id), key.value);
      if plain.Some? {
        return Parsed(codec.parse(plain.value)), seen;
      }
      if kind != Credentials {
        return Error(Authentication), seen;
      }
      r, seen := LoadLegacy(id, y);
    }

    method RefreshShared(y: System) returns (r: Result<Object>, ghost seen: Files, ghost filled: bool)
      modifies disk, shared
      ensures Outcome(shared.cache, disk.files, r, seen, filled) ==
                Refresh(codec, kind, key, old(shared.cache), old(disk.files), y)
    {
      seen, filled := disk.files, false;
      if !y.stat {
        return Error(Io), seen, filled;
      }
      if Stale(codec, kind, key, shared.cache, disk.files) {
        r, seen := Load(y);
        if r.Error? {
          return;
        }
        LetOthers(ToRestat, y);
        if !y.restat {
          return Error(Io), seen, filled;
        }
        shared.cache := FileCache(Some(r.value), disk.files.file, codec.TagOf(kind, key));
        filled := true;
      }
      r := Ok(shared.cache.snapshot.value);
    }

    /** `all`: a closed handle touches nothing; a successful read is the meaning of what it saw. */
    method All(y: System) returns (r: Result<Object>, ghost seen: Files)
      requires codec.Sound() && Coherent(codec, kind, shared.cache)
      modifies disk, shared
      ensures y.Stamps(codec) && y.Settles() ==> Coherent(codec, kind, shared.cache)
      ensures closed ==> r == Error(Closed) && shared.cache == old(shared.cache) && disk.files == old(disk.files)
      ensures r.Ok? ==> Meaning(codec, kind, key, seen) == Some(r.value)
      ensures y.Stamps(codec) && y.Quiet() ==>
                && (r.Ok? ==> Meaning(codec, kind, key, disk.files) == Some(r.value))
                && Meaning(codec, kind, key, disk.files) ==
                     Meaning(codec, kind, key, old(disk.files).(salt := disk.files.salt))
                && (!closed && y.NoFault() ==> (r.Ok? <==> Meaning(codec, kind, key, disk.files).Some?))
    {
      if closed {
        return Error(Closed), disk.files;
      }
      RefreshIsFreshRead(codec, kind, key, shared.cache, disk.files, y);
      if y.Stamps(codec) && y.Quiet() {
        QuietRefresh(codec, kind, key, shared.cache, disk.files, y);
      }
      hide Refresh, Meaning, Coherent, System.Quiet, System.Stamps, System.Settles;
      ghost var filled;
      r, seen, filled := RefreshShared(y);
    }

    /** `get`: what `all` would find under the name. */
    method Get(name: string, y: System) returns (r: Result<Option<string>>, ghost seen: Files)
      requires codec.Sound() && Coherent(codec, kind, shared.cache)
      modifies disk, shared
      ensures y.Stamps(codec) && y.Settles() ==> Coherent(codec, kind, shared.cache)
      ensures closed ==> r == Error(Closed) && shared.cache == old(shared.cache) && disk.files == old(disk.files)
      ensures r.Ok? ==> Finds(codec, kind, key, seen, name, r.value)
      ensures y.Stamps(codec) && y.Quiet() ==>
                && (r.Ok? ==> Finds(codec, kind, key, disk.files, name, r.value))
                && (!closed && y.NoFault() ==> (r.Ok? <==> Meaning(codec, kind, key, disk.files).Some?))
    {
      hide Meaning, Coherent, System.Quiet, System.Stamps, System.Settles;
      var contents;
      contents, seen := All(y);
      r := if contents.Ok? then Ok(Find(contents.value, name)) else Error(contents.failure);
    }

    /** `mutate`. */
    method MutateShared(change: Change, y: System) returns (r: Result<()>, ghost seen: Files, ghost filled: bool)
      modifies disk, shared
      ensures Outcome(shared.cache, disk.files, r, seen, filled) ==
                Mutate(codec, kind, key, old(shared.cache), old(disk.files), change, y)
    {
      hide Refresh;
      var contents;
      contents, seen, filled := RefreshShared(y);
      if contents.Error? {
        return Error(contents.failure), seen, filled;
      }
      var (save, next) := change.Apply(kind, contents.value);
      if !save {
        return Ok(()), seen, filled;
      }
      if kind != Plain && key.None? {
        return Error(MissingKey), seen, filled;
      }
      LetOthers(ToRewrite, y);
      if !y.rewrite {
        return Error(Io), seen, filled;
      }
      var data := codec.serialize(next);
      if kind != Plain {
        data := codec.encrypt(data, key.value, y.nonce + 1);
      }
      disk.files := disk.files.(file := Some(y.stamp(data)));
      LetOthers(ToFinalStat, y);
      if !y.finalStat {
        return Error(Io), seen, filled;
      }
      shared.cache := FileCache(Some(next), disk.files.file, codec.TagOf(kind, key));
      return Ok(()), seen, true;
    }

    /** A closed handle touches nothing; a successful change is one of what it saw, and left alone it is
        what a fresh read then finds. */
    method Apply(change: Change, y: System) returns (r: Result<()>, ghost seen: Files)
      requires codec.Sound() && Coherent(codec, kind, shared.cache)
      modifies disk, shared
      ensures y.Stamps(codec) && y.Settles() ==> Coherent(codec, kind, shared.cache)
      ensures closed ==> r == Error(Closed) && shared.cache == old(shared.cache) && disk.files == old(disk.files)
      ensures r.Ok? ==> Meaning(codec, kind, key, seen).Some? && shared.cache.snapshot.Some? &&
                        Makes(change, Meaning(codec, kind, key, seen).value, shared.cache.snapshot.value)
      ensures y.Stamps(codec) && y.Quiet() ==>
                var before := Meaning(codec, kind, key, old(disk.files).(salt := disk.files.salt));
                var after := Meaning(codec, kind, key, disk.files);
                && (r.Ok? ==> before.Some? && after.Some? && Makes(change, before.value, after.value))
                && (r.Error? ==>
                     after == before || (before.Some? && after.Some? && Makes(change, before.value, after.value)))
                && (r.Ok? && Spared(kind, change, before.value) ==> disk.files == old(disk.files))
                && (r.Ok? && !Spared(kind, change, before.value) ==>
                      && y.rewrite
                      && exists d :: disk.files.file == Some(y.stamp(d)) && codec.Open(kind, key, d) == after)
                && (!closed && y.NoFault() ==> (r.Ok? <==> before.Some? && (kind == Plain || key.Some?)))
    {
      if closed {
        return Error(Closed), disk.files;
      }
      MutateCoherent(codec, kind, key, shared.cache, disk.files, change, y);
      if y.Stamps(codec) && y.Quiet() {
        MutateWrites(codec, kind, key, shared.cache, disk.files, change, y);
        SparedExactly(codec, kind, key, shared.cache, disk.files, change, y);
        QuietSettles(y);
      }
      hide Codec.Open, Find;
      hide Mutate, Meaning, Coherent, Stands, Makes, System.Quiet, System.Stamps, System.Settles;
      ghost var filled;
      r, seen, filled := MutateShared(change, y);
    }
  }
}
