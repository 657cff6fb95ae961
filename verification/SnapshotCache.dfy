/** schema/snapshot.go and schema/cache.go: saving and loading snapshots through a fingerprinted cache. */
module SnapshotCache {
  import opened Text
  import opened Sorting
  import opened SchemaModel
  import opened SnapshotEdits
  import opened SnapshotHeap
  import opened Wrappers

  type Bytes = string

  // ------------------------------------------------------------ sorting twice is sorting once

  lemma SortedNamesStay<T(!new)>(s: seq<T>, name: T -> string)
    ensures SortByName(SortByName(s, name), name) == SortByName(s, name)
  {
    NameOrderTotal(name);
    StableSortSorts(s, NameOrder(name));
    StableSortFixpoint(SortByName(s, name), NameOrder(name));
  }

  lemma SortTableTwice(t: TableV)
    ensures SortTableV(SortTableV(t)) == SortTableV(t)
  {
    SortedNamesStay(t.columns, ColumnVName);
    SortedNamesStay(t.head.indexes, IndexName);
    SortedNamesStay(t.head.constraints, ConstraintName);
  }

  lemma SortTwice(s: SnapshotV)
    ensures Sorted(Sorted(s)) == Sorted(s)
  {
    if s.schema.Some? {
      SortedNamesStay(s.schema.value.head.enums, EnumName);
      SortedNamesStay(s.schema.value.head.views, ViewName);
      var ts := SortByName(s.schema.value.tables, TableVName);
      var sorted := SortEach(ts);
      NameOrderTotal(TableVName);
      StableSortSorts(s.schema.value.tables, NameOrder(TableVName));
      forall i, j | 0 <= i < j < |sorted| ensures NameOrder(TableVName)(sorted[i], sorted[j]) {
        assert NameOrder(TableVName)(ts[i], ts[j]);
        OrderOfNames(TableVName, ts[i], ts[j]);
        OrderOfNames(TableVName, sorted[i], sorted[j]);
      }
      StableSortFixpoint(sorted, NameOrder(TableVName));
      forall i | 0 <= i < |sorted| ensures SortEach(sorted)[i] == sorted[i] { SortTableTwice(ts[i]); }
      assert SortEach(sorted) == sorted;
    }
  }

  // ------------------------------------------------------------------- without a cache

  /** What the JSON layer and the fingerprint are. */
  datatype Codec = Codec(parse: Bytes -> Option<SnapshotV>, marshal: SnapshotV -> Bytes, fingerprint: Bytes -> string)

  /** Different bytes have different fingerprints, and what was printed parses back. */
  ghost predicate Faithful(codec: Codec) {
    && (forall a, b :: codec.fingerprint(a) == codec.fingerprint(b) ==> a == b)
    && (forall v :: codec.parse(codec.marshal(v)) == Some(v))
  }

  datatype Error = NotFound | Unparsable | InvalidSchema | WriteFailed
  type Files = map<string, Bytes>

  /** LoadSnapshot as if there were no cache: the sorted parse of the current bytes. */
  function LoadOutcome(codec: Codec, files: Files, path: string): Result<SnapshotV, Error> {
    if path !in files then Failure(NotFound)
    else match codec.parse(files[path]) case None => Failure(Unparsable) case Some(v) => Success(Sorted(v))
  }

  /** How far the file system lets a save get; a write that fails leaves some text in the temporary file. */
  datatype Disk = Works | NoDirectory | NoWrite(left: Bytes) | NoRename

  function Temporary(path: string): string {
    path + ".tmp"
  }

  /**
   * The temporary file and its renaming: the files afterwards, and whether it worked. Nothing can be renamed to the
   * empty path.
   */
  function WriteOutcome(files: Files, path: string, data: Bytes, disk: Disk): (Files, bool) {
    match disk
    case NoDirectory => (files, false)
    case NoWrite(left) => (files[Temporary(path) := left], false)
    case NoRename => (files[Temporary(path) := data], false)
    case Works =>
      if path == "" then (files[Temporary(path) := data], false) else ((files - {Temporary(path)})[path := data], true)
  }

  /** SaveSnapshot: the files afterwards, and the error. */
  function SaveOutcome(codec: Codec, files: Files, path: string, v: SnapshotV, disk: Disk): (Files, Option<Error>) {
    if !ValidSnapshot(Sorted(v)) then (files, Some(InvalidSchema))
    else
      var (files', ok) := WriteOutcome(files, path, codec.marshal(Sorted(v)), disk);
      (files', if ok then None else Some(WriteFailed))
  }

  // --------------------------------------------------------------------- with the cache

  datatype Entry = Entry(fingerprint: string, snapshot: Snapshot)

  /** The bytes each entry was made from, the cached objects, and those they share with callers. */
  datatype Books = Books(origin: map<string, Bytes>, owned: set<object>, lent: set<object>)

  /** The entry was made from `data`, and its objects are the cache's own. */
  ghost predicate EntryOk(codec: Codec, entry: Entry, data: Bytes, owned: set<object>, lent: set<object>)
    reads owned, lent
  {
    && entry.snapshot in owned && entry.snapshot.repr <= owned && entry.snapshot.shared <= lent
    && entry.fingerprint == codec.fingerprint(data)
    && codec.parse(data).Some? && Says(entry.snapshot, Sorted(codec.parse(data).value))
  }

  ghost predicate CacheOk(codec: Codec, cache: map<string, Entry>, books: Books)
    reads books.owned, books.lent
  {
    forall p :: p in cache ==> p in books.origin && EntryOk(codec, cache[p], books.origin[p], books.owned, books.lent)
  }

  ghost function Entered(books: Books, path: string, entry: Entry, data: Bytes): Books
    reads entry.snapshot
  {
    Books(books.origin[path := data], books.owned + entry.snapshot.repr, books.lent + entry.snapshot.shared)
  }

  lemma EntryAdded(codec: Codec, cache: map<string, Entry>, books: Books, path: string, entry: Entry, data: Bytes)
    requires CacheOk(codec, cache, books) && entry.fingerprint == codec.fingerprint(data)
    requires codec.parse(data).Some? && Says(entry.snapshot, Sorted(codec.parse(data).value))
    ensures CacheOk(codec, cache[path := entry], Entered(books, path, entry, data))
  {
    var books' := Entered(books, path, entry, data);
    forall p | p in cache && p != path ensures EntryOk(codec, cache[p], books'.origin[p], books'.owned, books'.lent) {
      assert EntryOk(codec, cache[p], books.origin[p], books.owned, books.lent);
    }
  }

  class Store {
    const codec: Codec
    var files: Files
    var cache: map<string, Entry>
    ghost var books: Books

    /** Holds as long as nobody writes to cached objects, which callers never get, or to those that copies share. */
    ghost predicate Valid()
      reads this, books.owned, books.lent
    {
      this !in books.owned && this !in books.lent && "" !in files && Faithful(codec) && CacheOk(codec, cache, books)
    }

    /** None of the store's business. */
    ghost predicate Apart(s: Snapshot)
      reads this, s
    {
      s in s.repr && s.repr !! books.owned && s.repr !! books.lent && this !in s.repr && this !in s.shared
    }

    constructor (codec: Codec)
      requires Faithful(codec)
      ensures Valid() && files == map[] && cache == map[] && this.codec == codec && books == Books(map[], {}, {})
    {
      this.codec, files, cache, books := codec, map[], map[], Books(map[], {}, {});
    }

    /** Anything else that happens to the file. */
    method Outside(path: string, data: Option<Bytes>)
      requires Valid() && path != ""
      modifies this`files
      ensures Valid() && files == match data case Some(b) => old(files)[path := b] case None => old(files) - {path}
    {
      match data {
        case Some(b) => files := files[path := b];
        case None => files := files - {path};
      }
    }

    method SetEntry(path: string, entry: Entry, ghost data: Bytes, ghost snapshot: Snapshot, ghost v: SnapshotV)
      requires this !in books.owned + entry.snapshot.repr && this !in books.lent + entry.snapshot.shared &&
        "" !in files && Faithful(codec)
      requires Says(snapshot, v) && this !in snapshot.repr && this !in snapshot.shared &&
        Shares(entry.snapshot, snapshot)
      requires CacheOk(codec, cache[path := entry], Entered(books, path, entry, data))
      modifies this`cache, this`books
      ensures Valid() && books == Entered(old(books), path, entry, data) && cache == old(cache)[path := entry] &&
        Says(snapshot, v)
      ensures Shares(entry.snapshot, snapshot)
    {
      cache, books := cache[path := entry], Entered(books, path, entry, data);
    }

    method StoreCachedSnapshot(path: string, data: Bytes, snapshot: Snapshot, ghost v: SnapshotV)
      requires Valid() && path != "" && codec.parse(data) == Some(v) && Says(snapshot, Sorted(v)) &&
        this !in snapshot.repr && this !in snapshot.shared
      modifies this`cache, this`books
      ensures Valid() && old(books.owned) <= books.owned && fresh(books.owned - old(books.owned)) &&
        books.lent == old(books.lent) + snapshot.shared
      ensures Says(snapshot, Sorted(v))
      ensures path in cache && cache[path].fingerprint == codec.fingerprint(data) &&
        Shares(cache[path].snapshot, snapshot)
      ensures Says(cache[path].snapshot, Sorted(v))
    {
      var clone := Clone(snapshot, Sorted(v));
      var entry := Entry(codec.fingerprint(data), clone);
      EntryAdded(codec, cache, books, path, entry, data);
      SetEntry(path, entry, data, snapshot, Sorted(v));
    }

    /** The entry answers for the current bytes, and says v. */
    ghost predicate Hit(path: string, v: SnapshotV)
      reads this, if path in cache then {cache[path].snapshot} else {}
      reads if path in cache then cache[path].snapshot.repr else {}
      reads if path in cache then cache[path].snapshot.shared else {}
    {
      path in files && path in cache && cache[path].fingerprint == codec.fingerprint(files[path]) &&
          Says(cache[path].snapshot, v)
    }

    /** A valid entry for the current bytes says what they say. */
    lemma HitSays(path: string)
      requires Valid() && path in files && path in cache && cache[path].fingerprint == codec.fingerprint(files[path])
      ensures codec.parse(files[path]).Some? && Hit(path, Sorted(codec.parse(files[path]).value))
      ensures cache[path].snapshot.shared <= books.lent
    {
      assert EntryOk(codec, cache[path], books.origin[path], books.owned, books.lent) &&
          books.origin[path] == files[path];
    }

    /** loadCachedSnapshot: a copy of an entry whose fingerprint is that of the current bytes. */
    method LoadCachedSnapshot(path: string, fingerprint: string, ghost v: SnapshotV) returns (cached: Option<Snapshot>)
      requires path in files && fingerprint == codec.fingerprint(files[path])
      requires path in cache && cache[path].fingerprint == fingerprint ==> Hit(path, v)
      ensures cached.Some? <==> path in cache && cache[path].fingerprint == fingerprint
      ensures cached.Some? ==>
        Says(cached.value, v) && fresh(cached.value.repr) && Shares(cached.value, cache[path].snapshot)
    {
      if path !in cache { return None; }
      var entry := cache[path];
      if entry.fingerprint != fingerprint { return None; }
      var out := Clone(entry.snapshot, v);
      return Some(out);
    }

    /** The part of LoadSnapshot behind a cache miss. */
    method Decode(path: string, data: Bytes, parsed: SnapshotV) returns (out: Snapshot)
      requires Valid() && path != "" && codec.parse(data) == Some(parsed)
      modifies this`cache, this`books
      ensures Valid() && old(books.owned) <= books.owned && fresh(books.owned - old(books.owned))
      ensures old(books.lent) <= books.lent && fresh(books.lent - old(books.lent))
      ensures Says(out, Sorted(parsed)) && fresh(out.repr) && Apart(out) && out.shared <= books.lent
    {
      var snap := BuildSorted(parsed);
      StoreCachedSnapshot(path, data, snap, parsed);
      out := Clone(snap, Sorted(parsed));
    }

    /**
     * LoadSnapshot returns what it would return without a cache, in objects the cache does not know. Whatever the state
     * of the cache, a hit returns what the entry says.
     */
    method LoadSnapshot(path: string, ghost hit: Option<SnapshotV>) returns (r: Result<Snapshot, Error>)
      requires match hit case None => Valid() case Some(v) => Hit(path, v)
      modifies this`cache, this`books
      ensures hit.Some? ==> r.Success? && Says(r.value, hit.value) && fresh(r.value.repr)
      ensures hit.None? ==>
                && Valid() && old(books.owned) <= books.owned && fresh(books.owned - old(books.owned))
                && old(books.lent) <= books.lent && fresh(books.lent - old(books.lent))
                && match LoadOutcome(codec, files, path)
                   case Failure(e) => r == Failure(e)
                   case Success(v) => r.Success? && Says(r.value, v) && fresh(r.value.repr) && Apart(r.value) &&
                                      r.value.shared <= books.lent
    {
      if path !in files { return Failure(NotFound); }
      var data := files[path];
      var fingerprint := codec.fingerprint(data);
      ghost var answers := path in cache && cache[path].fingerprint == fingerprint;
      if hit.None? && answers { HitSays(path); }
      ghost var v := if hit.Some? then hit.value else if codec.parse(data).Some? then Sorted(codec.parse(data).value)
          else SnapshotV(0, None);
      var cached := LoadCachedSnapshot(path, fingerprint, v);
      if cached.Some? { return Success(cached.value); }
      var parsed := codec.parse(data);
      if parsed.None? { return Failure(Unparsable); }
      var out := Decode(path, data, parsed.value);
      return Success(out);
    }

    /** Sorting a caller's snapshot does not touch the cache. */
    method SortHeld(snap: Snapshot, ghost v: SnapshotV)
      requires Valid() && Says(snap, v) && Apart(snap)
      modifies snap`tables, snap`head, TableSet(snap.tables)
      ensures Valid() && Says(snap, Sorted(v)) && snap.repr == old(snap.repr) && snap.shared == old(snap.shared)
    {
      assert snap in snap.repr && forall t :: t in TableSet(snap.tables) ==> t in snap.repr;
      Sort(snap, v);
    }

    method SetFiles(fs: Files, ghost snap: Snapshot, ghost v: SnapshotV)
      requires Valid() && "" !in fs && Says(snap, v) && this !in snap.repr && this !in snap.shared
      modifies this`files
      ensures Valid() && files == fs && Says(snap, v)
    {
      files := fs;
    }

    method WriteFile(path: string, data: Bytes, disk: Disk, ghost snap: Snapshot, ghost v: SnapshotV) returns (ok: bool)
      requires Valid() && Says(snap, v) && this !in snap.repr && this !in snap.shared
      modifies this`files
      ensures Valid() && Says(snap, v) && (ok ==> path != "")
      ensures (files, ok) == WriteOutcome(old(files), path, data, disk)
    {
      if disk.NoDirectory? { return false; }
      if disk.NoWrite? {
        SetFiles(files[Temporary(path) := disk.left], snap, v);
        return false;
      }
      assert files[Temporary(path) := data] - {Temporary(path)} == files - {Temporary(path)};
      SetFiles(files[Temporary(path) := data], snap, v);
      if disk.NoRename? || path == "" { return false; }
      SetFiles((files - {Temporary(path)})[path := data], snap, v);
      ok := true;
    }

    /** The part of SaveSnapshot behind validation. */
    method Persist(path: string, snap: Snapshot, disk: Disk, ghost v: SnapshotV) returns (ok: bool)
      requires Valid() && Says(snap, v) && Sorted(v) == v && this !in snap.repr && this !in snap.shared &&
        ValidSnapshot(v)
      modifies this`files, this`cache, this`books
      ensures Valid() && old(books.owned) <= books.owned && fresh(books.owned - old(books.owned))
      ensures old(books.lent) <= books.lent <= old(books.lent) + snap.shared && Says(snap, v)
      ensures SaveOutcome(codec, old(files), path, v, disk) == (files, if ok then None else Some(WriteFailed))
      ensures ok ==> Hit(path, v) && Shares(cache[path].snapshot, snap)
    {
      var read := Read(snap, v);
      var data := codec.marshal(read);
      ok := WriteFile(path, data, disk, snap, v);
      if ok { StoreCachedSnapshot(path, data, snap, v); }
    }

    /** SaveSnapshot sorts the caller's snapshot in place, also when it then refuses it. */
    method SaveSnapshot(path: string, snap: Snapshot, disk: Disk, ghost v: SnapshotV) returns (err: Option<Error>)
      requires Valid() && Says(snap, v) && Apart(snap)
      modifies this, snap`tables, snap`head, TableSet(snap.tables)
      ensures Valid() && old(books.owned) <= books.owned && fresh(books.owned - old(books.owned))
      ensures old(books.lent) <= books.lent <= old(books.lent) + snap.shared
      ensures Says(snap, Sorted(v)) && snap.repr == old(snap.repr) && snap.shared == old(snap.shared)
      ensures SaveOutcome(codec, old(files), path, v, disk) == (files, err)
      ensures err.None? ==> Hit(path, Sorted(v)) && Shares(cache[path].snapshot, snap)
    {
      SortHeld(snap, v);
      var ok := ValidateSnapshot(snap, Sorted(v));
      if !ok { return Some(InvalidSchema); }
      SortTwice(v);
      ok := Persist(path, snap, disk, Sorted(v));
      return if ok then None else Some(WriteFailed);
    }
  }

  // ------------------------------------------- writes to what the cache shares with callers

  /**
   * In the state SaveSnapshot leaves behind, a caller that overwrites an enum value in place makes the entry say
   * something else, while it still answers for the file.
   */
  method EnumWriteReachesCache(store: Store, path: string, snap: Snapshot, ghost v: SnapshotV, i: nat, j: nat, k: nat,
                               x: string)
    requires store.Hit(path, v) && store.codec.parse(store.files[path]) == Some(v) && store !in snap.shared
    requires Says(snap, v) && Shares(store.cache[path].snapshot, snap) && HasColumn(v, i, j)
    requires k < |ColumnAt(v, i, j).enumValues| && ColumnAt(v, i, j).enumValues[k] != x
    modifies snap.shared
    ensures path in store.files && store.codec.parse(store.files[path]) == Some(v)
    ensures path in store.cache && store.cache[path].fingerprint == store.codec.fingerprint(store.files[path])
    ensures !Says(store.cache[path].snapshot, v)
  {
    WriteEnum(snap, store.cache[path].snapshot, v, i, j, k, x);
  }

  /** So does one that writes to an element type of an array type, below the one that clones copy. */
  method ElementWriteReachesCache(store: Store, path: string, snap: Snapshot, ghost v: SnapshotV, i: nat, j: nat,
                                  d: nat, w: ElementWrite)
    requires store.Hit(path, v) && store.codec.parse(store.files[path]) == Some(v) && store !in snap.shared
    requires Says(snap, v) && Shares(store.cache[path].snapshot, snap) && HasColumn(v, i, j)
    requires d < |ColumnAt(v, i, j).elements| && Changes(w, ColumnAt(v, i, j).elements[d]) && (w.WriteDef? ==> d > 0)
    modifies snap.shared
    ensures path in store.files && store.codec.parse(store.files[path]) == Some(v)
    ensures path in store.cache && store.cache[path].fingerprint == store.codec.fingerprint(store.files[path])
    ensures !Says(store.cache[path].snapshot, v)
  {
    WriteShared(snap, store.cache[path].snapshot, v, i, j, d, w);
  }

  const TABLE := TableHead("t", [], [], map[])

  /** One table with one column. */
  function OneColumn(c: ColumnV): SnapshotV {
    SnapshotV(0, Some(SchemaV(NO_HEAD, [TableV(TABLE, [c])])))
  }

  lemma SortOne<T(!new)>(x: T, name: T -> string)
    ensures SortByName([x], name) == [x] && SortByName<T>([], name) == []
  {
    NameOrderTotal(name);
    StableSortFixpoint([x], NameOrder(name));
  }

  lemma OneColumnIsSorted(c: ColumnV)
    ensures Sorted(OneColumn(c)) == OneColumn(c) && (c.def.name != "" ==> ValidSnapshot(OneColumn(c)))
  {
    var t := TableV(TABLE, [c]);
    SortOne(t, TableVName);
    SortOne(c, ColumnVName);
    assert SortTableV(t) == t;
    assert SortEach([t]) == [t];
  }

  /** What saying OneColumn(c) comes to. */
  ghost predicate HasOnly(s: Snapshot, c: ColumnV)
    reads s, s.repr, s.shared
  {
    && s in s.repr && s.repr !! s.shared && s.generatedAt == 0 && s.hasSchema && s.head == NO_HEAD && |s.tables| == 1
    && s.tables[0] in s.repr && s.tables[0].head == TABLE && |s.tables[0].columns| == 1
    && ColumnSays(s.tables[0].columns[0], c, s.repr, s.shared)
  }

  lemma HasOnlyIff(s: Snapshot, c: ColumnV)
    ensures Says(s, OneColumn(c)) <==> HasOnly(s, c)
  {
    var vs := OneColumn(c).schema.value.tables;
    assert vs[0] == TableV(TABLE, [c]);
    if Says(s, OneColumn(c)) {
      assert TableSays(s.tables[0], vs[0], s.repr, s.shared);
    }
    if HasOnly(s, c) {
      assert ColumnsSay(s.tables[0].columns, [c], s.repr, s.shared);
      assert TableSays(s.tables[0], vs[0], s.repr, s.shared);
      assert Tidy(s.tables);
    }
  }

  /** c with its innermost type renamed. */
  function Renamed(c: ColumnV, def: map<string, string>): (r: ColumnV)
    requires |c.elements| == 2
    ensures |r.elements| == 2
  {
    c.(elements := [c.elements[0], c.elements[1].(def := def)])
  }

  lemma OneElement(e: Element?, v: ElementV, shared: set<object>)
    ensures ChainSays(e, [v], shared) <==>
            e != null && e in shared && e.owner == null && ElementSays(e, v, shared) && e.arrayOf == null
  {
    assert [v][1..] == [];
  }

  lemma TwoElements(c: SnapshotHeap.Column, v: ColumnV, parts: set<object>, shared: set<object>)
    requires |v.elements| == 2 && parts !! shared
    ensures ColumnSays(c, v, parts, shared) <==>
              && c in parts && c.enumValues in shared && c.def == v.def && c.enumValues[..] == v.enumValues
              && c.arrayOf != null && c.arrayOf in parts && c.arrayOf.owner == c &&
                  ElementSays(c.arrayOf, v.elements[0], shared)
              && c.arrayOf.arrayOf != null && c.arrayOf.arrayOf in shared && c.arrayOf.arrayOf.owner == null
              && ElementSays(c.arrayOf.arrayOf, v.elements[1], shared) && c.arrayOf.arrayOf.arrayOf == null
  {
    assert v.elements[1..] == [v.elements[1]];
    if c.arrayOf != null { OneElement(c.arrayOf.arrayOf, v.elements[1], shared); }
  }

  /** The holder of s renames the innermost type; the copy follows. */
  method Rename(s: Snapshot, ghost copy: Snapshot, def: map<string, string>, ghost c: ColumnV)
    requires |c.elements| == 2 && HasOnly(s, c) && HasOnly(copy, c) && Shares(copy, s)
    modifies s.shared
    ensures HasOnly(s, Renamed(c, def)) && HasOnly(copy, Renamed(c, def))
  {
    ghost var sc, cc := s.tables[0].columns[0], copy.tables[0].columns[0];
    assert TableShares(copy.tables[0], s.tables[0], copy.repr, s.repr);
    assert ColumnShares(cc, sc, copy.repr, s.repr);
    TwoElements(sc, c, s.repr, s.shared);
    TwoElements(cc, c, copy.repr, copy.shared);
    s.tables[0].columns[0].arrayOf.arrayOf.def := def;
    TwoElements(sc, Renamed(c, def), s.repr, s.shared);
    TwoElements(cc, Renamed(c, def), copy.repr, copy.shared);
  }

  /** A store behind whose back the one column of a saved snapshot has been renamed. */
  method SaveAndRename(codec: Codec, path: string, c: ColumnV, def: map<string, string>) returns (store: Store)
    requires Faithful(codec) && path != "" && c.def.name != "" && |c.elements| == 2
    ensures fresh(store) && store.codec == codec && path in store.files &&
            store.files[path] == codec.marshal(OneColumn(c))
    ensures store.Hit(path, OneColumn(Renamed(c, def)))
  {
    OneColumnIsSorted(c);
    store := new Store(codec);
    var snap := Build(OneColumn(c));
    var err := store.SaveSnapshot(path, snap, Works, OneColumn(c));
    ghost var entry := store.cache[path].snapshot;
    HasOnlyIff(snap, c);
    HasOnlyIff(entry, c);
    Rename(snap, entry, def, c);
    HasOnlyIff(entry, Renamed(c, def));
  }

  /**
   * From a fresh cache to a wrong answer: a snapshot with a column of an array of arrays is saved, its holder renames
   * the innermost type, and loading the unchanged file gives the renamed column instead of the one in the file.
   */
  method LoadAfterSharedWrite(codec: Codec, path: string, c: ColumnV, def: map<string, string>)
    returns (store: Store, r: Result<Snapshot, Error>)
    requires Faithful(codec) && path != "" && c.def.name != "" && |c.elements| == 2
    ensures LoadOutcome(codec, store.files, path) == Success(OneColumn(c))
    ensures r.Success? && Says(r.value, OneColumn(Renamed(c, def)))
  {
    OneColumnIsSorted(c);
    store := SaveAndRename(codec, path, c, def);
    r := store.LoadSnapshot(path, Some(OneColumn(Renamed(c, def))));
  }

  // ------------------------------------------------------------ any run of any commands

  /** New is a snapshot the caller makes, as the migration writer does from the models. */
  datatype Command =
    | New(v: SnapshotV)
    | Load(path: string)
    | Save(k: nat, path: string, disk: Disk)
    | Outside(path: string, data: Option<Bytes>)
    | Change(k: nat, edit: Edit)

  datatype Reply = Loaded(error: Option<Error>) | Saved(error: Option<Error>) | Done

  /** The files, and the snapshots the caller holds. */
  datatype World = World(files: Files, held: seq<SnapshotV>)

  /** One command without a cache. */
  ghost function Perform(codec: Codec, w: World, c: Command): (World, Reply) {
    match c
    case New(v) => (w.(held := w.held + [v]), Done)
    case Load(path) =>
      (match LoadOutcome(codec, w.files, path)
       case Failure(e) => (w, Loaded(Some(e)))
       case Success(v) => (w.(held := w.held + [v]), Loaded(None)))
    case Save(k, path, disk) =>
      if k >= |w.held| then (w, Done)
      else
        var (files, err) := SaveOutcome(codec, w.files, path, w.held[k], disk);
        (World(files, w.held[k := Sorted(w.held[k])]), Saved(err))
    case Outside(path, data) =>
      if path == "" then (w, Done)
      else (w.(files := (match data case Some(b) => w.files[path := b] case None => w.files - {path})), Done)
    case Change(k, e) => (if k < |w.held| then w.(held := w.held[k := Edited(w.held[k], e)]) else w, Done)
  }

  ghost function PerformAll(codec: Codec, w: World, cs: seq<Command>): (World, seq<Reply>) {
    if cs == [] then (w, [])
    else
      var (w', replies) := PerformAll(codec, w, cs[..|cs| - 1]);
      var (w'', reply) := Perform(codec, w', cs[|cs| - 1]);
      (w'', replies + [reply])
  }

  /** Snapshots side by side: each says its value, and no two have an object of their own in common. */
  ghost predicate HeldSay(held: seq<Snapshot>, vs: seq<SnapshotV>, objs: set<object>, shared: set<object>)
    reads objs, shared
  {
    && |held| == |vs| && objs !! shared
    && (forall k :: 0 <= k < |held| ==> HeldSays(held[k], vs[k], objs, shared))
    && (forall k, l :: 0 <= k < l < |held| ==> held[k].repr !! held[l].repr)
  }

  ghost predicate HeldSays(s: Snapshot, v: SnapshotV, objs: set<object>, shared: set<object>)
    reads objs, shared
  {
    s in objs && s.repr <= objs && s.shared <= shared && Says(s, v)
  }

  lemma OneMoreHeld(held: seq<Snapshot>, vs: seq<SnapshotV>, objs: set<object>, shared: set<object>, s: Snapshot,
                    v: SnapshotV)
    requires HeldSay(held, vs, objs, shared) && Says(s, v) && s.repr !! objs && s.repr !! shared && s.shared !! objs
    ensures HeldSay(held + [s], vs + [v], objs + s.repr, shared + s.shared)
  {
    forall k | 0 <= k < |held| ensures HeldSays(held[k], vs[k], objs + s.repr, shared + s.shared) {
      assert HeldSays(held[k], vs[k], objs, shared);
    }
  }

  /** The others have nothing that belongs to held snapshot k. */
  lemma OthersHeld(held: seq<Snapshot>, vs: seq<SnapshotV>, objs: set<object>, shared: set<object>, k: nat)
    requires HeldSay(held, vs, objs, shared) && k < |held|
    ensures forall l :: 0 <= l < |held| && l != k ==> HeldSays(held[l], vs[l], objs - held[k].repr, shared)
    ensures HeldSays(held[k], vs[k], objs, shared)
  {
    forall l | 0 <= l < |held| && l != k ensures HeldSays(held[l], vs[l], objs - held[k].repr, shared) {
      assert HeldSays(held[l], vs[l], objs, shared) && held[l].repr !! held[k].repr;
    }
  }

  /** Held snapshot k has changed, and grown by new objects only. */
  lemma OneHeldChanged(held: seq<Snapshot>, vs: seq<SnapshotV>, rest: set<object>, objs: set<object>,
                       shared: set<object>, shared': set<object>, k: nat, v: SnapshotV)
    requires |held| == |vs| && k < |held| && rest <= objs && shared <= shared' && objs !! shared' &&
             HeldSays(held[k], v, objs, shared')
    requires forall l :: 0 <= l < |held| && l != k ==> HeldSays(held[l], vs[l], rest, shared)
    requires forall l, m :: 0 <= l < m < |held| ==> held[l].repr !! held[m].repr
    ensures HeldSay(held, vs[k := v], objs, shared')
  {
    forall l | 0 <= l < |held| && l != k ensures HeldSays(held[l], vs[l], objs, shared') {
      assert HeldSays(held[l], vs[l], rest, shared);
    }
  }

  /** A caller of the package: a store, and the snapshots it was given. */
  class Client {
    const store: Store
    var held: seq<Snapshot>
    ghost var objs: set<object>
    ghost var shared: set<object>

    ghost predicate Holds(w: World)
      reads this, store, store.books.owned, store.books.lent, objs, shared
    {
      && store.Valid() && store.files == w.files && HeldSay(held, w.held, objs, shared)
      && objs !! store.books.owned && objs !! store.books.lent && {this, store} !! objs && {this, store} !! shared
      && this !in store.books.owned && this !in store.books.lent
    }

    constructor (codec: Codec)
      requires Faithful(codec)
      ensures Holds(World(map[], [])) && store.codec == codec && fresh(store) && objs == {}
    {
      store := new Store(codec);
      held, objs, shared := [], {}, {};
    }

    method DoLoad(path: string, ghost w: World) returns (err: Option<Error>)
      requires Holds(w)
      modifies this, store`cache, store`books
      ensures match LoadOutcome(store.codec, w.files, path)
              case Failure(e) => err == Some(e) && Holds(w)
              case Success(v) => err == None && Holds(w.(held := w.held + [v]))
      ensures old(objs) <= objs && fresh(objs - old(objs))
    {
      var r := store.LoadSnapshot(path, None);
      if r.Failure? { return Some(r.error); }
      Take(r.value, LoadOutcome(store.codec, w.files, path).value, w);
      err := None;
    }

    method DoNew(v: SnapshotV, ghost w: World)
      requires Holds(w)
      modifies this
      ensures Holds(w.(held := w.held + [v])) && old(objs) <= objs && fresh(objs - old(objs))
    {
      var s := Build(v);
      Take(s, v, w);
    }

    method Take(s: Snapshot, ghost v: SnapshotV, ghost w: World)
      requires Holds(w) && Says(s, v) && s.repr !! objs && s.repr !! shared && s.shared !! objs && store.Apart(s) &&
        this !in s.repr && this !in s.shared
      modifies this
      ensures Holds(w.(held := w.held + [v])) && objs == old(objs) + s.repr
    {
      OneMoreHeld(held, w.held, objs, shared, s, v);
      held, objs, shared := held + [s], objs + s.repr, shared + s.shared;
    }

    method DoSave(k: nat, path: string, disk: Disk, ghost w: World) returns (err: Option<Error>)
      requires Holds(w) && k < |held|
      modifies store, objs
      ensures Holds(World(store.files, w.held[k := Sorted(w.held[k])]))
      ensures SaveOutcome(store.codec, w.files, path, w.held[k], disk) == (store.files, err)
    {
      ghost var rest := objs - held[k].repr;
      OthersHeld(held, w.held, objs, shared, k);
      err := store.SaveSnapshot(path, held[k], disk, w.held[k]);
      forall l | 0 <= l < |held| && l != k ensures HeldSays(held[l], w.held[l], rest, shared) {
        assert old(HeldSays(held[l], w.held[l], rest, shared));
      }
      OneHeldChanged(held, w.held, rest, objs, shared, shared, k, Sorted(w.held[k]));
    }

    method DoOutside(path: string, data: Option<Bytes>, ghost w: World)
      requires Holds(w) && path != ""
      modifies store`files
      ensures Holds(w.(files := store.files)) && store.files
        == match data case Some(b) => w.files[path := b] case None => w.files - {path}
    {
      store.Outside(path, data);
    }

    method ChangeHeld(k: nat, e: Edit, ghost vs: seq<SnapshotV>)
      requires HeldSay(held, vs, objs, shared) && k < |held| && this !in objs && this !in shared
      modifies this`objs, this`shared, objs
      ensures HeldSay(held, vs[k := Edited(vs[k], e)], objs, shared)
      ensures old(objs) <= objs && fresh(objs - old(objs)) && old(shared) <= shared && fresh(shared - old(shared))
    {
      ghost var rest := objs - held[k].repr;
      OthersHeld(held, vs, objs, shared, k);
      ApplyEdit(held[k], e, vs[k]);
      forall l | 0 <= l < |held| && l != k ensures HeldSays(held[l], vs[l], rest, shared) {
        assert old(HeldSays(held[l], vs[l], rest, shared));
      }
      ghost var more, lent := objs + held[k].repr, shared + held[k].shared;
      OneHeldChanged(held, vs, rest, more, shared, lent, k, Edited(vs[k], e));
      objs, shared := more, lent;
    }

    method DoChange(k: nat, e: Edit, ghost w: World)
      requires Holds(w) && k < |held|
      modifies this, objs
      ensures Holds(w.(held := w.held[k := Edited(w.held[k], e)])) && old(objs) <= objs && fresh(objs - old(objs))
    {
      ChangeHeld(k, e, w.held);
    }

    method Transfer(c: Command, ghost w: World) returns (reply: Reply)
      requires Holds(w) && (c.Load? || c.Save?)
      modifies this, store, objs
      ensures Perform(store.codec, w, c).1 == reply && Holds(Perform(store.codec, w, c).0)
      ensures old(objs) <= objs && fresh(objs - old(objs))
    {
      if c.Load? {
        var err := DoLoad(c.path, w);
        return Loaded(err);
      }
      if c.k >= |held| { return Done; }
      var err := DoSave(c.k, c.path, c.disk, w);
      return Saved(err);
    }

    method Do(c: Command, ghost w: World) returns (reply: Reply)
      requires Holds(w)
      modifies this, store, objs
      ensures Perform(store.codec, w, c).1 == reply && Holds(Perform(store.codec, w, c).0)
      ensures old(objs) <= objs && fresh(objs - old(objs))
    {
      reply := Done;
      match c {
        case New(v) => DoNew(v, w);
        case Load(_) => reply := Transfer(c, w);
        case Save(_, _, _) => reply := Transfer(c, w);
        case Outside(path, data) =>
          if path != "" { DoOutside(path, data, w); }
        case Change(k, e) =>
          if k < |held| { DoChange(k, e, w); }
      }
    }

    /**
     * Any run of commands gives the replies, the files and the snapshots it would give without a cache. Callers may
     * make snapshots, and edit everything in theirs that a clone copies.
     */
    method Run(cs: seq<Command>, ghost w: World) returns (replies: seq<Reply>)
      requires Holds(w)
      modifies this, store, objs
      ensures PerformAll(store.codec, w, cs).1 == replies && Holds(PerformAll(store.codec, w, cs).0)
    {
      replies := [];
      for i := 0 to |cs|
        invariant PerformAll(store.codec, w, cs[..i]).1 == replies && Holds(PerformAll(store.codec, w, cs[..i]).0)
        invariant old(objs) <= objs && fresh(objs - old(objs))
      {
        assert cs[..i + 1][..i] == cs[..i] && cs[..i + 1][i] == cs[i];
        var reply := Do(cs[i], PerformAll(store.codec, w, cs[..i]).0);
        replies := replies + [reply];
      }
      assert cs[..|cs|] == cs;
    }
  }
}
